/** Python's `str.split(sep)` for a one-character separator, and its inverse `sep.join(parts)`. */
module Strings {

  /** `s.count(c)`: how many times `c` occurs in `s`. */
  function Occurrences(s: string, c: char): (n: nat)
    ensures n > 0 <==> c in s
    ensures n <= |s|
  {
    if |s| == 0 then 0
    else
      assert s == [s[0]] + s[1..];
      (if s[0] == c then 1 else 0) + Occurrences(s[1..], c)
  }

  /** `s.split(sep)`: the pieces between the occurrences of `sep`, empty pieces kept,
      so there is always one more piece than there are separators. */
  function Split(s: string, sep: char): (parts: seq<string>)
    ensures |parts| == Occurrences(s, sep) + 1
    ensures forall i :: 0 <= i < |parts| ==> sep !in parts[i]
    decreases |s|
  {
    if |s| == 0 then [""]
    else
      var rest := Split(s[1..], sep);
      assert s == [s[0]] + s[1..];
      if s[0] == sep then [""] + rest
      else [[s[0]] + rest[0]] + rest[1..]
  }

  /** `sep.join(parts)`. */
  function Join(parts: seq<string>, sep: char): string
    requires |parts| > 0
  {
    if |parts| == 1 then parts[0] else parts[0] + [sep] + Join(parts[1..], sep)
  }

  /** Joining the pieces back with the separator gives the original string. */
  lemma {:induction false} JoinSplit(s: string, sep: char)
    ensures Join(Split(s, sep), sep) == s
    decreases |s|
  {
    if |s| > 0 {
      var rest := Split(s[1..], sep);
      JoinSplit(s[1..], sep);
      assert s == [s[0]] + s[1..];
      if s[0] == sep {
        var parts := [""] + rest;
        assert Split(s, sep) == parts;
        assert parts[1..] == rest;
        assert Join(parts, sep) == "" + [sep] + Join(rest, sep);
      } else {
        var parts := [[s[0]] + rest[0]] + rest[1..];
        assert Split(s, sep) == parts;
        if |rest| == 1 {
          assert Join(parts, sep) == [s[0]] + rest[0];
        } else {
          assert parts[1..] == rest[1..];
          assert Join(parts, sep) == [s[0]] + rest[0] + [sep] + Join(rest[1..], sep);
          assert Join(rest, sep) == rest[0] + [sep] + Join(rest[1..], sep);
        }
      }
    }
  }

  /** Splitting `p + t` where `p` holds no separator glues `p` to the first piece of `t`. */
  lemma {:induction false} SplitAfterPlainPrefix(p: string, t: string, sep: char)
    requires sep !in p
    ensures Split(p + t, sep) == [p + Split(t, sep)[0]] + Split(t, sep)[1..]
    decreases |p|
  {
    if |p| > 0 {
      SplitAfterPlainPrefix(p[1..], t, sep);
      assert (p + t)[1..] == p[1..] + t;
      var rest := Split(p[1..] + t, sep);
      assert rest[0] == p[1..] + Split(t, sep)[0];
      assert rest[1..] == Split(t, sep)[1..];
      assert [p[0]] + rest[0] == p + Split(t, sep)[0];
    } else {
      assert p + t == t;
      assert p + Split(t, sep)[0] == Split(t, sep)[0];
    }
  }

  /** Splitting what was joined from separator-free pieces gives the pieces back. */
  lemma {:induction false} SplitJoin(parts: seq<string>, sep: char)
    requires |parts| > 0
    requires forall i :: 0 <= i < |parts| ==> sep !in parts[i]
    ensures Split(Join(parts, sep), sep) == parts
    decreases |parts|
  {
    if |parts| == 1 {
      SplitAfterPlainPrefix(parts[0], "", sep);
      assert parts[0] + "" == parts[0];
    } else {
      var tail := Join(parts[1..], sep);
      SplitJoin(parts[1..], sep);
      assert Split([sep] + tail, sep) == [""] + parts[1..] by {
        assert ([sep] + tail)[1..] == tail;
      }
      SplitAfterPlainPrefix(parts[0], [sep] + tail, sep);
      assert parts[0] + ([sep] + tail) == parts[0] + [sep] + tail;
      assert parts[0] + "" == parts[0];
      assert parts == [parts[0]] + parts[1..];
    }
  }

  /** Two separator-free strings joined by the separator split back into those two. */
  lemma SplitPair(a: string, b: string, sep: char)
    requires sep !in a && sep !in b
    ensures Split(a + [sep] + b, sep) == [a, b]
  {
    assert [a, b][1..] == [b];
    assert Join([a, b], sep) == a + [sep] + b;
    SplitJoin([a, b], sep);
  }

  /** When `sep` occurs in `s`, the first two pieces with a separator between them begin `s`,
      and what follows them is the end of `s` or another separator. */
  lemma {:induction false} FirstTwoPieces(s: string, sep: char)
    requires sep in s
    ensures var parts := Split(s, sep);
      |parts| > 1 && parts[0] + [sep] + parts[1] <= s
      && (var k := |parts[0]| + 1 + |parts[1]|; k == |s| || s[k] == sep)
  {
    var parts := Split(s, sep);
    var front := parts[0] + [sep] + parts[1];
    var rest := if |parts| > 2 then [sep] + Join(parts[2..], sep) else "";
    JoinSplit(s, sep);
    assert Join(parts[1..], sep) == parts[1] + rest;
    assert s == front + rest;
    assert s[..|front|] == front;
  }

  /** A leading separator yields an empty first piece. */
  lemma SplitAfterSeparator(t: string, sep: char)
    ensures Split([sep] + t, sep) == [""] + Split(t, sep)
  {
    assert ([sep] + t)[1..] == t;
  }

  /** Two separator-free pieces, each followed by the separator, are the first two pieces
      whatever comes after them. */
  lemma TwoPlainPieces(a: string, b: string, rest: string, sep: char)
    requires sep !in a && sep !in b
    ensures var parts := Split(a + ([sep] + (b + ([sep] + rest))), sep);
      |parts| > 2 && parts[0] == a && parts[1] == b
  {
    var tail := b + ([sep] + rest);
    SplitAfterSeparator(rest, sep);
    SplitAfterPlainPrefix(b, [sep] + rest, sep);
    var tailParts := Split(tail, sep);
    assert tailParts[0] == b && |tailParts| > 1;
    SplitAfterSeparator(tail, sep);
    SplitAfterPlainPrefix(a, [sep] + tail, sep);
  }
}
