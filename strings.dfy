/** The three Python string operations the core relies on: `sep.join(parts)`,
    `s.split(c)` and the running `acc += chunk` concatenation. */
module Strings {

  /** Python's `sep.join(parts)`. */
  function Join(parts: seq<string>, sep: string): (r: string)
    ensures parts != [] ==> parts[0] <= r
    ensures parts == [] ==> r == ""
    ensures |parts| == 1 ==> r == parts[0]
    ensures sep != "" ==> (r == "" <==> parts == [] || (|parts| == 1 && parts[0] == ""))
  {
    if parts == [] then ""
    else if |parts| == 1 then parts[0]
    else parts[0] + sep + Join(parts[1..], sep)
  }

  /** Joining one more part adds the separator and that part at the end. */
  lemma {:induction false} JoinAppend(parts: seq<string>, p: string, sep: string)
    requires parts != []
    ensures Join(parts + [p], sep) == Join(parts, sep) + sep + p
  {
    if |parts| > 1 {
      assert (parts + [p])[1..] == parts[1..] + [p];
      JoinAppend(parts[1..], p, sep);
    }
  }

  /** Python's `s.split(c)` for a one-character separator: never empty, and no piece holds `c`. */
  function Split(s: string, c: char): (pieces: seq<string>)
    ensures |pieces| >= 1
    ensures forall i :: 0 <= i < |pieces| ==> c !in pieces[i]
  {
    if s == [] then [""]
    else
      var rest := Split(s[1..], c);
      if s[0] == c then [""] + rest
      else [[s[0]] + rest[0]] + rest[1..]
  }

  /** The last piece of a split. */
  function LastPiece(s: string, c: char): (r: string)
    ensures c !in r
    ensures c !in s ==> r == s
  {
    var pieces := Split(s, c);
    assert c !in s ==> pieces == [s] by {
      if c !in s { SplitWithoutSeparator(s, c); }
    }
    pieces[|pieces| - 1]
  }

  /** Splitting and joining back with the same separator gives the original string. */
  lemma {:induction false} JoinSplit(s: string, c: char)
    ensures Join(Split(s, c), [c]) == s
  {
    if s != [] {
      var rest := Split(s[1..], c);
      JoinSplit(s[1..], c);
      if s[0] == c {
        assert Split(s, c) == [""] + rest;
        assert ([""] + rest)[1..] == rest;
      } else {
        var pieces := [[s[0]] + rest[0]] + rest[1..];
        assert Split(s, c) == pieces;
        if |rest| > 1 {
          assert pieces[1..] == rest[1..];
          assert Join(rest, [c]) == rest[0] + [c] + Join(rest[1..], [c]);
        }
      }
    }
  }

  /** The last piece of `s.split(c)` is the longest suffix of `s` without `c`:
      it is a suffix, holds no `c`, and is either all of `s` or preceded by a `c`. */
  lemma {:induction false} LastPieceIsSuffix(s: string, c: char)
    ensures var r := LastPiece(s, c);
      && c !in r
      && |r| <= |s| && s[|s| - |r|..] == r
      && (|r| == |s| || s[|s| - |r| - 1] == c)
  {
    if s != [] {
      var rest := Split(s[1..], c);
      var t := s[1..];
      LastPieceIsSuffix(t, c);
      var r' := rest[|rest| - 1];
      assert t[|t| - |r'|..] == r';
      if s[0] == c {
        assert Split(s, c) == [""] + rest;
        assert LastPiece(s, c) == r';
        assert s[|s| - |r'|..] == t[|t| - |r'|..];
      } else if |rest| == 1 {
        JoinSplit(t, c);
        assert r' == t;
        assert Split(s, c) == [[s[0]] + r'];
        assert LastPiece(s, c) == s;
      } else {
        var pieces := [[s[0]] + rest[0]] + rest[1..];
        assert Split(s, c) == pieces;
        assert LastPiece(s, c) == r';
        assert s[|s| - |r'|..] == t[|t| - |r'|..];
        if |r'| < |t| {
          assert s[|s| - |r'| - 1] == t[|t| - |r'| - 1];
        } else {
          // r' is all of t, so t holds no c and splits into one piece
          assert false;
        }
      }
    }
  }

  /** A string with no `c` splits into itself alone. */
  lemma {:induction false} SplitWithoutSeparator(s: string, c: char)
    requires c !in s
    ensures Split(s, c) == [s]
  {
    if s != [] {
      assert s[0] in s;
      SplitWithoutSeparator(s[1..], c);
      assert [s[0]] + s[1..] == s;
    }
  }

  /** `acc = ""; for chunk in chunks: acc += chunk`; no chunk is longer than the result. */
  function Concat(chunks: seq<string>): (r: string)
    ensures forall i :: 0 <= i < |chunks| ==> |chunks[i]| <= |r|
  {
    if chunks == [] then ""
    else Concat(chunks[..|chunks| - 1]) + chunks[|chunks| - 1]
  }

  /** Concatenation does not depend on where chunk boundaries fall. */
  lemma {:induction false} ConcatAppend(a: seq<string>, b: seq<string>)
    ensures Concat(a + b) == Concat(a) + Concat(b)
  {
    if b == [] {
      assert a + b == a;
    } else {
      var b' := b[..|b| - 1];
      assert (a + b)[..|a + b| - 1] == a + b';
      ConcatAppend(a, b');
    }
  }

  /** Every chunk appears, in order, at its offset inside the concatenation. */
  lemma {:induction false} ConcatHasChunk(chunks: seq<string>, i: nat)
    requires i < |chunks|
    ensures var off := |Concat(chunks[..i])|;
      off + |chunks[i]| <= |Concat(chunks)| && Concat(chunks)[off..off + |chunks[i]|] == chunks[i]
  {
    assert chunks == chunks[..i] + ([chunks[i]] + chunks[i + 1..]);
    ConcatAppend(chunks[..i], [chunks[i]] + chunks[i + 1..]);
    ConcatAppend([chunks[i]], chunks[i + 1..]);
    assert [chunks[i]][..0] == [];
  }
}
