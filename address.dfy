/** The sender-address extractor of the autoresponder (pong/main.go, ParseToField).
    It cuts a `From` header value at `<` and then at `>` using Go's
    `strings.Split`, which is modelled here for a one-character separator. */
module Address {
  import opened Wrappers

  /** Number of occurrences of `c` in `s`. */
  function Count(s: string, c: char): (n: nat)
    ensures n == 0 <==> c !in s
    ensures n <= |s|
    decreases |s|
  {
    if s == [] then 0
    else
      assert s == [s[0]] + s[1..];
      (if s[0] == c then 1 else 0) + Count(s[1..], c)
  }

  /** Occurrences in a concatenation add up. */
  lemma {:induction false} CountAppend(a: string, b: string, c: char)
    ensures Count(a + b, c) == Count(a, c) + Count(b, c)
    decreases |a|
  {
    if a == [] {
      assert a + b == b;
    } else {
      assert (a + b)[1..] == a[1..] + b;
      CountAppend(a[1..], b, c);
    }
  }

  /** Position of the first occurrence of `c` in `s`. */
  function IndexOf(s: string, c: char): (i: nat)
    requires c in s
    ensures i < |s| && s[i] == c && c !in s[..i]
  {
    if s[0] == c then 0
    else
      var j := IndexOf(s[1..], c);
      assert s[..j + 1] == [s[0]] + s[1..][..j];
      j + 1
  }

  /** The first occurrence of `c` is the position that has `c` and no `c` before it. */
  lemma IndexOfAt(s: string, c: char, i: nat)
    requires i < |s| && s[i] == c && c !in s[..i]
    ensures IndexOf(s, c) == i
  {
  }

  /** Concatenation of `pieces` with `sep` between neighbours (Go's `strings.Join`). */
  function Join(pieces: seq<string>, sep: char): string
    requires |pieces| > 0
  {
    if |pieces| == 1 then pieces[0] else pieces[0] + [sep] + Join(pieces[1..], sep)
  }

  /** Go's `strings.Split(s, sep)` for a one-character separator: the maximal
      runs of `s` between occurrences of `sep`, one more piece than there are
      separators (so the empty string gives one empty piece). */
  function Split(s: string, sep: char): (pieces: seq<string>)
    ensures |pieces| == Count(s, sep) + 1
    ensures forall k :: 0 <= k < |pieces| ==> sep !in pieces[k]
    ensures Join(pieces, sep) == s
    decreases |s|
  {
    if sep !in s then [s]
    else
      var i := IndexOf(s, sep);
      assert s == s[..i] + [sep] + s[i + 1..];
      CountAppend(s[..i] + [sep], s[i + 1..], sep);
      CountAppend(s[..i], [sep], sep);
      [s[..i]] + Split(s[i + 1..], sep)
  }

  /** Splitting undoes joining: pieces free of the separator are recovered. */
  lemma {:induction false} SplitJoin(pieces: seq<string>, sep: char)
    requires |pieces| > 0
    requires forall k :: 0 <= k < |pieces| ==> sep !in pieces[k]
    ensures Split(Join(pieces, sep), sep) == pieces
  {
    if |pieces| > 1 {
      var rest := Join(pieces[1..], sep);
      var s := pieces[0] + [sep] + rest;
      assert s[..|pieces[0]|] == pieces[0];
      IndexOfAt(s, sep, |pieces[0]|);
      assert s[|pieces[0]| + 1..] == rest;
      SplitJoin(pieces[1..], sep);
    }
  }

  /** A split into two pieces puts the one separator between them. */
  lemma SplitInTwo(s: string, sep: char)
    requires |Split(s, sep)| == 2
    ensures s == Split(s, sep)[0] + [sep] + Split(s, sep)[1]
  {
    var pieces := Split(s, sep);
    assert Join(pieces[1..], sep) == pieces[1];
  }

  const ParseFailure: string := "IMF parse failure"

  /** The text after the first `<` of `s`. */
  function AfterOpen(s: string): string
    requires '<' in s
  {
    s[IndexOf(s, '<') + 1..]
  }

  /** ParseToField: the address between the first `<` and the first `>`
      after it, refused with ParseFailure unless the value splits into two
      pieces at `<` and the second piece into two at `>`. */
  function ParseToField(sender: string): Result<string> {
    var fields := Split(sender, '<');
    if |fields| != 2 then Err(ParseFailure)
    else
      var s := Split(fields[1], '>');
      if |s| != 2 then Err(ParseFailure)
      else Ok(s[0])
  }

  /** ParseToField succeeds exactly when the value has one `<` and the text
      after it one `>`; the address it yields holds no angle bracket, and a
      failure always carries ParseFailure. */
  lemma ParseToFieldCounts(sender: string)
    ensures var r := ParseToField(sender);
      && (r.Ok? <==> Count(sender, '<') == 1 && Count(AfterOpen(sender), '>') == 1)
      && (r.Ok? ==> '<' !in r.value && '>' !in r.value)
      && (r.Err? ==> r.msg == ParseFailure)
  {
    var fields := Split(sender, '<');
    if |fields| == 2 {
      SplitJoin(fields, '<');
      assert AfterOpen(sender) == fields[1];
    }
  }

  /** `s` is `a<r>b` with one `<` and, after it, one `>`: the shape the
      extractor accepts. Text before the `<` may hold `>`. */
  ghost predicate AngleAddr(s: string, a: string, r: string, b: string) {
    && s == a + ['<'] + r + ['>'] + b
    && '<' !in a
    && '<' !in r && '>' !in r
    && '<' !in b && '>' !in b
  }

  /** Every value of the accepted shape yields the text between the brackets. */
  lemma ParseToFieldAccepts(a: string, r: string, b: string)
    requires AngleAddr(a + ['<'] + r + ['>'] + b, a, r, b)
    ensures ParseToField(a + ['<'] + r + ['>'] + b) == Ok(r)
  {
    var s := a + ['<'] + r + ['>'] + b;
    var tail := r + ['>'] + b;
    assert s == Join([a, tail], '<');
    SplitJoin([a, tail], '<');
    assert tail == Join([r, b], '>');
    SplitJoin([r, b], '>');
  }

  /** Every success comes from a value of the accepted shape: the text before
      the `<` and after the `>` is discarded. */
  lemma ParseToFieldSound(s: string, r: string)
    requires ParseToField(s) == Ok(r)
    ensures exists a, b :: AngleAddr(s, a, r, b)
  {
    var fields := Split(s, '<');
    var t := Split(fields[1], '>');
    PiecesFormAngleAddr(s, fields, t);
  }

  /** The pieces of the two splits, when there are two of each, are the parts of `a<r>b`. */
  lemma PiecesFormAngleAddr(s: string, fields: seq<string>, t: seq<string>)
    requires fields == Split(s, '<') && |fields| == 2
    requires t == Split(fields[1], '>') && |t| == 2
    ensures AngleAddr(s, fields[0], t[0], t[1])
  {
    SplitInTwo(s, '<');
    SplitInTwo(fields[1], '>');
    assert fields[1] == t[0] + ['>'] + t[1];
  }

  /** ParseToField succeeds with `r` exactly on values of the shape `a<r>b`. */
  lemma ParseToFieldCharacterised(s: string, r: string)
    ensures ParseToField(s) == Ok(r) <==> exists a, b :: AngleAddr(s, a, r, b)
  {
    if ParseToField(s) == Ok(r) {
      ParseToFieldSound(s, r);
    }
    if exists a, b :: AngleAddr(s, a, r, b) {
      var a, b :| AngleAddr(s, a, r, b);
      ParseToFieldAccepts(a, r, b);
    }
  }

  /** The worked example: a display name followed by an angle address. */
  lemma ParseToFieldExample()
    ensures ParseToField("Name <user@host>") == Ok("user@host")
  {
    assert "Name <user@host>" == "Name " + ['<'] + "user@host" + ['>'] + "";
    ParseToFieldAccepts("Name ", "user@host", "");
  }

  /** Without `<` the header is refused. */
  lemma ParseToFieldMissingOpen(s: string)
    requires '<' !in s
    ensures ParseToField(s) == Err(ParseFailure)
  {
  }

  /** With two `<` the header is refused, wherever they stand. */
  lemma ParseToFieldTwoOpens(a: string, b: string, c: string)
    ensures ParseToField(a + ['<'] + b + ['<'] + c) == Err(ParseFailure)
  {
    var s := a + ['<'] + b + ['<'] + c;
    CountAppend(a + ['<'] + b + ['<'], c, '<');
    CountAppend(a + ['<'] + b, ['<'], '<');
    CountAppend(a + ['<'], b, '<');
    CountAppend(a, ['<'], '<');
  }

  /** With one `<` but no `>` after it the header is refused. */
  lemma ParseToFieldMissingClose(a: string, t: string)
    requires '<' !in a && '<' !in t && '>' !in t
    ensures ParseToField(a + ['<'] + t) == Err(ParseFailure)
  {
    var s := a + ['<'] + t;
    assert s[..|a|] == a;
    IndexOfAt(s, '<', |a|);
    assert AfterOpen(s) == t;
  }

  /** With two `>` after the one `<` the header is refused. */
  lemma ParseToFieldTwoCloses(a: string, t: string, u: string, v: string)
    requires '<' !in a && '<' !in t
    ensures ParseToField(a + ['<'] + t + ['>'] + u + ['>'] + v) == Err(ParseFailure)
  {
    var tail := t + ['>'] + u + ['>'] + v;
    var s := a + ['<'] + tail;
    assert s == a + ['<'] + t + ['>'] + u + ['>'] + v;
    assert s[..|a|] == a;
    IndexOfAt(s, '<', |a|);
    assert AfterOpen(s) == tail;
    CountAppend(t + ['>'] + u + ['>'], v, '>');
    CountAppend(t + ['>'] + u, ['>'], '>');
    CountAppend(t + ['>'], u, '>');
    CountAppend(t, ['>'], '>');
  }

  /** A `>` before the `<` is not looked at: such a header still parses. */
  lemma ParseToFieldCloseBeforeOpen()
    ensures ParseToField("a> <b>") == Ok("b")
  {
    assert "a> <b>" == "a> " + ['<'] + "b" + ['>'] + "";
    ParseToFieldAccepts("a> ", "b", "");
  }
}
