# Quote widget store — a verified Dafny model

The widget in `dom-manipulation/script.js` keeps its quotes in a module-level
array of `{text, category}` records. The array starts with eight seed quotes.
`addQuote` trims the two form values, rejects the submission with an alert
when either is empty, and otherwise pushes the new record and shows a random
quote again. `showRandomQuote` shows an empty-state message when there are no
quotes, and otherwise shows the quote at index `floor(Math.random() * length)`.

The model has four modules:

- `Wrappers` (`wrappers.dfy`): the `Option` datatype.
- `Text` (`text.dfy`): `String.prototype.trim`, over the declared set of
  ECMAScript whitespace and line-terminator characters (`Text.WhitespaceChars`).
  It scans for the first and the last non-whitespace character, as engines do,
  and is specified by what it means. The result is the unpadded slice of the
  input between a blank prefix and a blank suffix, and that slice is unique.
  It is empty exactly when the input is blank. Trimming twice is trimming once.
- `Selection` (`selection.dfy`): the index rule of `showRandomQuote`, taking
  the random value `r` in `[0, 1)` as a parameter.
- `Quotes` (`quotes.dfy`): the record type, the seeds, validation, the
  append-only update as a function (`Append`), a session of many submissions
  (`AppendAll`), and the class `QuoteStore`. Its field `quotes` is the
  module-level array, and its methods `AddQuote` and `ShowRandomQuote` are
  the two script functions. `AddQuote` changes `quotes` exactly as `Append`
  says. `ShowRandomQuote` has no `modifies` clause, so it cannot change the
  store.

The store invariant (`Quotes.Stored`, over every record) is that text and
category are both non-empty. The seeds satisfy it and every add keeps it.
Every record that an add appends is also trimmed (`Quotes.Trimmed`).

## Model

| member | source | states |
|---|---|---|
| `Text.FirstNonBlank` | dom-manipulation/script.js:80-81 | the leading scan of trim: every character it skips is whitespace and it stops at a non-whitespace character or at the end |
| `Text.EndOfNonBlank` | dom-manipulation/script.js:80-81 | the trailing scan of trim: every character it drops is whitespace and the character before the new end, if any remains, is not |
| `Text.Trim` | dom-manipulation/script.js:80-84 | the trimmed value has no leading or trailing whitespace, is no longer than the input, and is empty exactly when the input is blank (the `!text` / `!category` test) |
| `Text.FirstNonBlankIs` | dom-manipulation/script.js:80-81 | the leading scan stops exactly at the first non-whitespace position after a run of whitespace |
| `Text.EndOfNonBlankIs` | dom-manipulation/script.js:80-81 | the trailing scan stops exactly after the last non-whitespace position before a run of whitespace |
| `Text.TrimOfSplit` | dom-manipulation/script.js:80-81 | any unpadded slice of the input with only whitespace before and after it is the trimmed value |
| `Text.TrimCharacterized` | dom-manipulation/script.js:80-81 | both directions: `m` is the trim of `s` exactly when `s` splits into blank prefix, unpadded `m` and blank suffix |
| `Text.TrimIdempotent` | dom-manipulation/script.js:80-81 | trimming a trimmed value changes nothing |
| `Text.OccursIsMembership` | dom-manipulation/script.js:80-81 | the whitespace test used by trim is exactly membership in the declared whitespace characters |
| `Text.VisibleAsciiNotWhitespace` | dom-manipulation/script.js:80-81 | no visible ASCII character (`!` to `~`) is removed by trim |
| `Text.TrimKeepsVisibleEnds` | dom-manipulation/script.js:80-84 | a value that starts and ends with visible ASCII is left unchanged by trim and passes the emptiness test |
| `Selection.PickIndex` | dom-manipulation/script.js:17-24 | for `r` in [0, 1): no index (the empty-state case) exactly when the store is empty; otherwise the index lies in [0, length), so the lookup is in bounds |
| `Selection.PickIndexInterval` | dom-manipulation/script.js:23 | index `k` is chosen exactly when `k/n <= r < (k+1)/n`, so each index owns an interval of width 1/n (uniform selection for uniform `r`) |
| `Selection.EveryIndexReachable` | dom-manipulation/script.js:23-24 | every index of a non-empty store is selected by some `r` in [0, 1) |
| `Quotes.SeedQuotes` | dom-manipulation/script.js:2-11 | the initial store holds exactly eight records (`Seed1` to `Seed8`, in source order) |
| `Quotes.SeedsAreStored` | dom-manipulation/script.js:2-11 | every seed record has a non-empty text and category |
| `Quotes.Validate` | dom-manipulation/script.js:80-93 | a record is produced exactly when neither raw value is blank; it is the pair of trimmed values, non-empty and without surrounding whitespace |
| `Quotes.Append` | dom-manipulation/script.js:80-96 | the store grows by at most one and every earlier record keeps its position and value; it grows exactly when both raw values are non-blank, the new last record is the trimmed pair, and the non-empty invariant is preserved |
| `Quotes.AppendAll` | dom-manipulation/script.js:75-104 | over any sequence of submissions the earlier records are untouched, the store grows by at most one per submission, the invariant is preserved, and every appended record is non-empty and trimmed |
| `Quotes.SessionAppendsAccepted` | dom-manipulation/script.js:75-104 | a session of submissions leaves the starting store as it was and appends exactly the trimmed pairs of the submissions that pass validation, in submission order, and nothing for a rejected one |
| `Quotes.SessionKeepsSeeds` | dom-manipulation/script.js:2-96 | after any submissions the store still begins with the eight seeds in order, every record is non-empty, and every record after the seeds is trimmed |
| `Quotes.QuoteStore.constructor` | dom-manipulation/script.js:2-11 | the store starts as the seed list and satisfies the invariant |
| `Quotes.QuoteStore.ShowRandomQuote` | dom-manipulation/script.js:14-24 | the empty-state message is shown exactly when the store is empty; otherwise the shown quote is the stored record at the selected index, and under the store invariant it has a non-empty text and category; the store is not modified |
| `Quotes.QuoteStore.AddQuote` | dom-manipulation/script.js:75-104 | rejected exactly when a raw value is blank; the new store is `Append` of the old one (unchanged on rejection, one trimmed record pushed otherwise); the invariant is kept; after a successful add the displayed quote is the stored record at index `floor(r * length)` of the new store, as the redisplay through `showRandomQuote` picks it |
| `Quotes.RandomRedisplayMissesNewQuote` | dom-manipulation/script.js:102-103 | adding ("New", "Cat") to the seed store grows it to nine records with the new one last, yet the redisplay at `r = 0` picks index 0, the first seed, which differs from the new record |
| `Quotes.QuoteStore.AddQuoteShowingNew` | dom-manipulation/script.js:75-104 | the corrected add: the same store update and rejection rule as `AddQuote`, and after a successful add the displayed quote is the trimmed new record, the last one in the store |

## Findings

| source | as written | input that shows it | evidently intended | confidence | as-written member | corrected member |
|---|---|---|---|---|---|---|
| dom-manipulation/script.js:102-103 | after a successful add, `addQuote` calls `showRandomQuote()`, which displays a random stored record | the seed store, text "New", category "Cat", and `Math.random()` returning 0: the first seed is displayed, not the new quote (`Quotes.RandomRedisplayMissesNewQuote`) | the comment at line 102 says the newly added quote is displayed, so the last record should be shown | medium; not executed | `Quotes.QuoteStore.AddQuote` | `Quotes.QuoteStore.AddQuoteShowingNew` |

`AddQuote` keeps the behaviour of the code as written. `AddQuoteShowingNew` is the corrected operation.

## Left out

- DOM work is not modelled: element lookups, `innerHTML` templates, element creation and insertion, event listeners and the `DOMContentLoaded` start-up. The quote display is modelled as the returned `Display` value.
- `createAddQuoteForm` is not modelled. It only builds and attaches a form.
- The form creates inputs `quoteText`/`quoteCategory`, but `addQuote` reads `newQuoteText`/`newQuoteCategory`. This is element wiring, so `AddQuote` takes the two raw strings as parameters.
- The `alert` on rejection is modelled as the `Rejected` outcome with no state change.
- Clearing the two form inputs after an add is not modelled. It changes only the DOM.
- Escaping of quote text interpolated into HTML is not modelled.
- Selection.PickIndex: `Math.random()` is a parameter `r` with `0 <= r < 1`. `r * length` is computed on exact reals, not IEEE doubles, so floating-point rounding is not modelled.
- Quotes.SeedsAreStored: proves only that the seed fields are non-empty. That the seed strings also have no surrounding whitespace is true by inspection but not proved, because reasoning about characters deep inside long string literals is too costly for the solver.
- Strings are sequences of Unicode scalar values, while JavaScript strings are UTF-16 code units, so a lone surrogate cannot be represented. Every character trim removes lies in the Basic Multilingual Plane and the script only tests the trimmed values for emptiness, so this does not change any result modelled here.
- Category filtering, persistence, import/export and the remote sync are not part of `script.js` and are not modelled.
