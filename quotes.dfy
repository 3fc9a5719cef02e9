/** The quote store of the widget: the module-level `quotes` array, its eight
    seed records, the validated append of addQuote, and the quote that
    showRandomQuote displays. */
module Quotes {
  import opened Wrappers
  import opened Text
  import Selection

  /** One `{text, category}` record. */
  datatype Quote = Quote(text: string, category: string)

  /** What the quote display shows: the empty-state message, or one quote. */
  datatype Display = NoQuotes | Showing(quote: Quote)

  /** The result of submitting the add form: the alert that rejects the input,
      or a successful add together with the quote displayed afterwards. */
  datatype AddOutcome = Rejected | Added(shown: Quote)

  /** A record as the store keeps it: both fields non-empty. */
  predicate Stored(q: Quote) {
    q.text != [] && q.category != []
  }

  /** Both fields are free of leading and trailing whitespace. */
  predicate Trimmed(q: Quote) {
    Unpadded(q.text) && Unpadded(q.category)
  }

  /** The store invariant: every record is non-empty in both fields. */
  predicate AllStored(quotes: seq<Quote>) {
    forall i :: 0 <= i < |quotes| ==> Stored(quotes[i])
  }

  /** The eight records the store starts with, in source order. */
  const Seed1 := Quote("The only way to do great work is to love what you do.", "Motivation")
  const Seed2 := Quote("Innovation distinguishes between a leader and a follower.", "Leadership")
  const Seed3 := Quote("Life is what happens to you while you're busy making other plans.", "Life")
  const Seed4 := Quote("The future belongs to those who believe in the beauty of their dreams.", "Dreams")
  const Seed5 := Quote("It is during our darkest moments that we must focus to see the light.", "Inspiration")
  const Seed6 := Quote("Success is not final, failure is not fatal: it is the courage to continue that counts.", "Success")
  const Seed7 := Quote("The only impossible journey is the one you never begin.", "Motivation")
  const Seed8 := Quote("In the middle of difficulty lies opportunity.", "Opportunity")

  function SeedQuotes(): (s: seq<Quote>)
    ensures |s| == 8
  {
    [Seed1, Seed2, Seed3, Seed4, Seed5, Seed6, Seed7, Seed8]
  }

  /** Every seed record has a non-empty text and category. */
  lemma SeedsAreStored()
    ensures AllStored(SeedQuotes())
  {
    var s := SeedQuotes();
    assert Stored(s[0]) && Stored(s[1]) && Stored(s[2]) && Stored(s[3]);
    assert Stored(s[4]) && Stored(s[5]) && Stored(s[6]) && Stored(s[7]);
  }

  /** The validation step of addQuote: both raw inputs are trimmed, and the
      record is built only when neither trimmed value is empty. */
  function Validate(rawText: string, rawCategory: string): (r: Option<Quote>)
    ensures r.Some? <==> !Blank(rawText) && !Blank(rawCategory)
    ensures r.Some? ==> Stored(r.value) && Trimmed(r.value)
    ensures r.Some? ==> r.value == Quote(Trim(rawText), Trim(rawCategory))
  {
    var text := Trim(rawText);
    var category := Trim(rawCategory);
    if text == [] || category == [] then None else Some(Quote(text, category))
  }

  /** The store after one addQuote: unchanged when validation fails, otherwise
      the old store with exactly one trimmed record pushed onto its end. */
  function Append(quotes: seq<Quote>, rawText: string, rawCategory: string): (r: seq<Quote>)
    ensures |quotes| <= |r| <= |quotes| + 1 && r[..|quotes|] == quotes
    ensures |r| == |quotes| + 1 <==> !Blank(rawText) && !Blank(rawCategory)
    ensures |r| == |quotes| + 1 ==> r[|quotes|] == Quote(Trim(rawText), Trim(rawCategory))
    ensures |r| == |quotes| + 1 ==> Stored(r[|quotes|]) && Trimmed(r[|quotes|])
    ensures AllStored(quotes) ==> AllStored(r)
  {
    match Validate(rawText, rawCategory)
    case None => quotes
    case Some(q) =>
      PushKeepsStored(quotes, q);
      quotes + [q]
  }

  /** Pushing a record leaves the earlier records in place, puts the record
      last, and keeps the store invariant when the record satisfies it. */
  lemma PushKeepsStored(quotes: seq<Quote>, q: Quote)
    ensures (quotes + [q])[..|quotes|] == quotes && (quotes + [q])[|quotes|] == q
    ensures AllStored(quotes) && Stored(q) ==> AllStored(quotes + [q])
  {
    assert (quotes + [q])[..|quotes|] == quotes;
  }

  /** The store after a session of form submissions, one (text, category)
      pair each, applied in order. Earlier records are never altered and the
      store invariant survives every step. */
  function AppendAll(quotes: seq<Quote>, inputs: seq<(string, string)>): (r: seq<Quote>)
    ensures |quotes| <= |r| <= |quotes| + |inputs| && r[..|quotes|] == quotes
    ensures AllStored(quotes) ==> AllStored(r)
    ensures forall i :: |quotes| <= i < |r| ==> Stored(r[i]) && Trimmed(r[i])
    decreases |inputs|
  {
    if inputs == [] then
      quotes
    else
      var next := Append(quotes, inputs[0].0, inputs[0].1);
      var r := AppendAll(next, inputs[1..]);
      assert r[..|quotes|] == r[..|next|][..|quotes|];
      assert forall i :: |quotes| <= i < |next| ==> r[i] == next[i];
      r
  }

  /** The records a session of submissions contributes, in submission order:
      the validated pair of each submission that passes, nothing for one that
      is rejected. */
  function Accepted(inputs: seq<(string, string)>): (r: seq<Quote>)
    ensures |r| <= |inputs|
    decreases |inputs|
  {
    if inputs == [] then
      []
    else
      var rest := Accepted(inputs[1..]);
      match Validate(inputs[0].0, inputs[0].1)
      case None => rest
      case Some(q) => [q] + rest
  }

  /** A session appends exactly the accepted submissions, in order, to the
      store it started from. */
  lemma {:induction false} SessionAppendsAccepted(quotes: seq<Quote>, inputs: seq<(string, string)>)
    ensures AppendAll(quotes, inputs) == quotes + Accepted(inputs)
    decreases |inputs|
  {
    if inputs == [] {
      assert quotes + [] == quotes;
    } else {
      var next := Append(quotes, inputs[0].0, inputs[0].1);
      SessionAppendsAccepted(next, inputs[1..]);
      match Validate(inputs[0].0, inputs[0].1)
      case None =>
      case Some(q) =>
        assert (quotes + [q]) + Accepted(inputs[1..]) == quotes + ([q] + Accepted(inputs[1..]));
    }
  }

  /** Whatever the user submits, the store starts with the eight seeds in
      order, every record in it is non-empty, and every record after the
      seeds is free of surrounding whitespace. */
  lemma SessionKeepsSeeds(inputs: seq<(string, string)>)
    ensures var s := AppendAll(SeedQuotes(), inputs);
      && 8 <= |s| <= 8 + |inputs|
      && s[..8] == SeedQuotes()
      && AllStored(s)
      && forall i :: 8 <= i < |s| ==> Trimmed(s[i])
  {
    SeedsAreStored();
  }

  /** Adding ("New", "Cat") to the seed store and then picking with r = 0,
      as addQuote's redisplay does, shows the first seed and not the record
      just added. */
  lemma RandomRedisplayMissesNewQuote()
    ensures var s := Append(SeedQuotes(), "New", "Cat");
      && |s| == 9 && s[8] == Quote("New", "Cat")
      && Selection.PickIndex(|s|, 0.0) == Some(0)
      && s[0] == Seed1 && s[0] != s[8]
  {
    TrimKeepsVisibleEnds("New");
    TrimKeepsVisibleEnds("Cat");
  }

  /** The widget's quote store: the module-level `quotes` array. */
  class QuoteStore {
    var quotes: seq<Quote>

    ghost predicate Valid()
      reads this
    {
      AllStored(quotes)
    }

    /** The store as the script starts: the eight seed records. */
    constructor ()
      ensures quotes == SeedQuotes() && Valid()
    {
      quotes := SeedQuotes();
      SeedsAreStored();
    }

    /** The selection of showRandomQuote for the random value `r`. It changes
        nothing: the empty store yields the empty-state message without
        indexing, and otherwise the quote at index floor(r * |quotes|). */
    method ShowRandomQuote(r: real) returns (d: Display)
      requires 0.0 <= r < 1.0
      ensures d.NoQuotes? <==> quotes == []
      ensures Valid() && d.Showing? ==> Stored(d.quote)
      ensures d.Showing? ==> exists k :: Selection.PickIndex(|quotes|, r) == Some(k) && k < |quotes| && d.quote == quotes[k]
    {
      match Selection.PickIndex(|quotes|, r)
      case None =>
        d := NoQuotes;
      case Some(k) =>
        d := Showing(quotes[k]);
    }

    /** addQuote on the raw form values: rejected when either trimmed value
        is empty, leaving the store as it was; otherwise the trimmed record is
        pushed and a random quote (for `r`) is displayed again. */
    method AddQuote(rawText: string, rawCategory: string, r: real) returns (outcome: AddOutcome)
      requires 0.0 <= r < 1.0
      modifies this
      ensures quotes == Append(old(quotes), rawText, rawCategory)
      ensures outcome.Rejected? <==> Blank(rawText) || Blank(rawCategory)
      ensures outcome.Added? ==> exists k :: Selection.PickIndex(|quotes|, r) == Some(k) && k < |quotes| && outcome.shown == quotes[k]
      ensures old(Valid()) ==> Valid()
    {
      match Validate(rawText, rawCategory)
      case None =>
        outcome := Rejected;
      case Some(q) =>
        quotes := quotes + [q];
        var d := ShowRandomQuote(r);
        outcome := Added(d.quote);
    }

    /** addQuote as its closing comment describes it: after a successful add
        the display shows the record just added, which is the last one. */
    method AddQuoteShowingNew(rawText: string, rawCategory: string) returns (outcome: AddOutcome)
      modifies this
      ensures quotes == Append(old(quotes), rawText, rawCategory)
      ensures outcome.Rejected? <==> Blank(rawText) || Blank(rawCategory)
      ensures outcome.Added? ==> outcome.shown == Quote(Trim(rawText), Trim(rawCategory))
      ensures outcome.Added? ==> quotes != [] && outcome.shown == quotes[|quotes| - 1]
      ensures old(Valid()) ==> Valid()
    {
      match Validate(rawText, rawCategory)
      case None =>
        outcome := Rejected;
      case Some(q) =>
        quotes := quotes + [q];
        outcome := Added(quotes[|quotes| - 1]);
    }
  }
}
