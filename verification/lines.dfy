/** Parsing of the script's two line-oriented files, the repository list and
    the settings file: `text.split('\n').filter(f => f)`. Lines are kept in
    order and are NOT trimmed; only empty pieces are dropped. */
module Lines {
  import opened JsString

  /** `.filter(f => f)` on an array of strings: the empty string is the only falsy string. */
  function NonEmpty(xs: seq<string>): (r: seq<string>)
    ensures |r| <= |xs|
    ensures forall i :: 0 <= i < |r| ==> r[i] != ""
    ensures forall x :: x in r <==> x in xs && x != ""
  {
    if |xs| == 0 then []
    else (if xs[0] == "" then [] else [xs[0]]) + NonEmpty(xs[1..])
  }

  /** Filtering distributes over concatenation, so relative order is kept. */
  lemma {:induction false} NonEmptyConcat(a: seq<string>, b: seq<string>)
    ensures NonEmpty(a + b) == NonEmpty(a) + NonEmpty(b)
    decreases |a|
  {
    if |a| > 0 {
      assert (a + b)[0] == a[0];
      assert (a + b)[1..] == a[1..] + b;
      NonEmptyConcat(a[1..], b);
      var h := if a[0] == "" then [] else [a[0]];
      assert NonEmpty(a + b) == h + (NonEmpty(a[1..]) + NonEmpty(b));
    } else {
      assert a + b == b;
    }
  }

  /** Filtering leaves a list without empty strings unchanged. */
  lemma {:induction false} NonEmptyKeepsAll(xs: seq<string>)
    requires forall i :: 0 <= i < |xs| ==> xs[i] != ""
    ensures NonEmpty(xs) == xs
    decreases |xs|
  {
    if |xs| > 0 {
      NonEmptyKeepsAll(xs[1..]);
      assert xs == [xs[0]] + xs[1..];
    }
  }

  /** A value that survives a round trip through a line-oriented file. */
  predicate StorableLine(x: string) {
    x != "" && '\n' !in x
  }

  /** The non-empty newline-separated pieces of `text`, in order, untrimmed. */
  function ParseLines(text: string): (r: seq<string>)
    ensures forall i :: 0 <= i < |r| ==> StorableLine(r[i])
    ensures forall x :: x in r <==> x in Split(text, '\n') && x != ""
  {
    NonEmpty(Split(text, '\n'))
  }

  /** Text without a newline is a single line, kept verbatim (no trimming), or nothing if empty. */
  lemma ParseSingleLine(text: string)
    requires '\n' !in text
    ensures ParseLines(text) == if text == "" then [] else [text]
  {
    SplitNoSeparator(text, '\n');
  }

  /** Parsing distributes over a newline: the lines of `a` followed by the lines of `b`. */
  lemma ParseLinesConcat(a: string, b: string)
    ensures ParseLines(a + "\n" + b) == ParseLines(a) + ParseLines(b)
  {
    SplitConcat(a, b, '\n');
    NonEmptyConcat(Split(a, '\n'), Split(b, '\n'));
  }

  /** Writing storable values joined by newlines and parsing them back is the identity. */
  lemma ParseJoin(xs: seq<string>)
    requires forall i :: 0 <= i < |xs| ==> StorableLine(xs[i])
    ensures ParseLines(Join(xs, "\n")) == xs
  {
    if |xs| == 0 {
      assert Split("", '\n') == [""];
    } else {
      JoinSplit(xs, '\n');
      NonEmptyKeepsAll(xs);
    }
  }

  /** Parsing is idempotent through a rewrite of the parsed lines. */
  lemma ParseJoinParse(text: string)
    ensures ParseLines(Join(ParseLines(text), "\n")) == ParseLines(text)
  {
    ParseJoin(ParseLines(text));
  }
}
