/** The few java.lang.String operations the meter protocol relies on:
    `contains`, `split` around a single literal character, and the
    concatenation that re-joins tokens. */
module JavaText {

  /** `t` occurs in `s` starting at index `i`. */
  predicate OccursAt(s: string, t: string, i: int) {
    0 <= i && i + |t| <= |s| && s[i..i + |t|] == t
  }

  /** String.contains: some position of `s` starts an occurrence of `t`
      (so the empty string is contained in every string). */
  function Contains(s: string, t: string): (b: bool)
    ensures b <==> exists i :: OccursAt(s, t, i)
    decreases |s|
  {
    if |t| > |s| then false
    else if s[..|t|] == t then assert OccursAt(s, t, 0); true
    else
      var b := Contains(s[1..], t);
      assert b ==> exists i :: OccursAt(s, t, i) by {
        if b {
          var i :| OccursAt(s[1..], t, i);
          assert s[1..][i..i + |t|] == s[i + 1..i + 1 + |t|];
          assert OccursAt(s, t, i + 1);
        }
      }
      assert (exists i :: OccursAt(s, t, i)) ==> b by {
        if exists i :: OccursAt(s, t, i) {
          var i :| OccursAt(s, t, i);
          assert i != 0;
          assert s[1..][i - 1..i - 1 + |t|] == s[i..i + |t|];
          assert OccursAt(s[1..], t, i - 1);
        }
      }
      b
  }

  /** Every piece of `s` between occurrences of `c`, empty pieces included
      (what String.split yields before trailing empty strings are dropped). */
  function Pieces(s: string, c: char): (p: seq<string>)
    ensures |p| >= 1
    ensures forall k :: 0 <= k < |p| ==> c !in p[k]
    decreases |s|
  {
    if s == [] then [""]
    else
      var rest := Pieces(s[1..], c);
      if s[0] == c then [""] + rest
      else [[s[0]] + rest[0]] + rest[1..]
  }

  /** The elements of `p` with `c` between consecutive ones. */
  function Join(p: seq<string>, c: char): string
  {
    if |p| == 0 then ""
    else if |p| == 1 then p[0]
    else p[0] + [c] + Join(p[1..], c)
  }

  /** Joining the pieces of `s` gives `s` back. */
  lemma {:induction false} JoinPieces(s: string, c: char)
    ensures Join(Pieces(s, c), c) == s
    decreases |s|
  {
    if s != [] {
      var rest := Pieces(s[1..], c);
      JoinPieces(s[1..], c);
      if s[0] == c {
        assert Pieces(s, c) == [""] + rest;
        assert ([""] + rest)[1..] == rest;
      } else {
        var p := Pieces(s, c);
        assert p == [[s[0]] + rest[0]] + rest[1..];
        if |rest| == 1 {
          assert s == [s[0]] + s[1..];
        } else {
          assert p[1..] == rest[1..];
          assert Join(rest, c) == rest[0] + [c] + Join(rest[1..], c);
          assert s == [s[0]] + s[1..];
        }
      }
    }
  }

  /** A string free of `c` is a single piece. */
  lemma {:induction false} PiecesOfPlain(a: string, c: char)
    requires c !in a
    ensures Pieces(a, c) == [a]
    decreases |a|
  {
    if a != [] {
      PiecesOfPlain(a[1..], c);
      assert [a[0]] + a[1..] == a;
    }
  }

  /** A `c`-free prefix followed by `c` contributes exactly one piece. */
  lemma {:induction false} PiecesOfSeparated(a: string, c: char, rest: string)
    requires c !in a
    ensures Pieces(a + [c] + rest, c) == [a] + Pieces(rest, c)
    decreases |a|
  {
    var s := a + [c] + rest;
    if a == [] {
      assert s == [c] + rest;
      assert s[1..] == rest;
    } else {
      assert s[1..] == a[1..] + [c] + rest;
      PiecesOfSeparated(a[1..], c, rest);
      assert [a[0]] + a[1..] == a;
    }
  }

  /** Splitting what Join produced recovers the joined elements, provided
      none of them contains the separator. */
  lemma {:induction false} PiecesJoin(p: seq<string>, c: char)
    requires |p| >= 1
    requires forall k :: 0 <= k < |p| ==> c !in p[k]
    ensures Pieces(Join(p, c), c) == p
    decreases |p|
  {
    if |p| == 1 {
      PiecesOfPlain(p[0], c);
    } else {
      PiecesJoin(p[1..], c);
      PiecesOfSeparated(p[0], c, Join(p[1..], c));
      assert [p[0]] + p[1..] == p;
    }
  }

  /** The first piece is the longest `c`-free prefix of `s`. */
  lemma {:induction false} FirstPiece(s: string, c: char)
    ensures var h := Pieces(s, c)[0];
      h <= s && c !in h && (|h| < |s| ==> s[|h|] == c)
    decreases |s|
  {
    if s != [] && s[0] != c {
      FirstPiece(s[1..], c);
    }
  }

  /** `p` with its trailing empty strings removed. */
  function DropTrailingEmpty(p: seq<string>): (r: seq<string>)
    ensures |r| <= |p| && r == p[..|r|]
    ensures forall k :: |r| <= k < |p| ==> p[k] == ""
    ensures |r| > 0 ==> r[|r| - 1] != ""
  {
    if |p| == 0 || p[|p| - 1] != "" then p
    else DropTrailingEmpty(p[..|p| - 1])
  }

  /** String.split(String.valueOf(c)) for a `c` that is no regular-expression
      metacharacter: a string without `c` is returned whole (so "" splits to
      [""]); otherwise the pieces around each `c`, trailing empty ones dropped. */
  function Split(s: string, c: char): (r: seq<string>)
    ensures forall k :: 0 <= k < |r| ==> c !in r[k]
    ensures c !in s ==> r == [s]
    ensures var p := Pieces(s, c);
      |r| <= |p| && r == p[..|r|] && forall k :: |r| <= k < |p| ==> p[k] == ""
    ensures c in s && |r| > 0 ==> r[|r| - 1] != ""
  {
    if c !in s then PiecesOfPlain(s, c); [s]
    else DropTrailingEmpty(Pieces(s, c))
  }

  /** `n` copies of `c`. */
  function Repeat(c: char, n: nat): (r: string)
    ensures |r| == n && forall i :: 0 <= i < n ==> r[i] == c
  {
    if n == 0 then "" else [c] + Repeat(c, n - 1)
  }

  /** Joining `n` empty pieces yields `n - 1` separators. */
  lemma {:induction false} JoinOfEmpties(p: seq<string>, c: char)
    requires |p| >= 1
    requires forall k :: 0 <= k < |p| ==> p[k] == ""
    ensures Join(p, c) == Repeat(c, |p| - 1)
    decreases |p|
  {
    if |p| > 1 {
      JoinOfEmpties(p[1..], c);
    }
  }

  /** split yields no element at all exactly when `s` is a non-empty run of
      separators (the case in which `lines[0]` throws). */
  lemma SplitEmptyIff(s: string, c: char)
    ensures |Split(s, c)| == 0 <==> |s| > 0 && forall i :: 0 <= i < |s| ==> s[i] == c
  {
    var p := Pieces(s, c);
    if |Split(s, c)| == 0 {
      assert c in s;
      JoinPieces(s, c);
      JoinOfEmpties(p, c);
    } else if |s| > 0 && forall i :: 0 <= i < |s| ==> s[i] == c {
      assert s[0] == c;
      JoinPieces(s, c);
      var r := Split(s, c);
      var last := r[|r| - 1];
      assert last != "";
      assert last in p;
      assert last[0] in s by {
        JoinContainsPiece(p, c, |r| - 1);
      }
      assert false;
    }
  }

  /** Every character of every joined element occurs in the joined string. */
  lemma {:induction false} JoinContainsPiece(p: seq<string>, c: char, k: nat)
    requires k < |p|
    ensures forall ch :: ch in p[k] ==> ch in Join(p, c)
    decreases |p|
  {
    if k > 0 {
      JoinContainsPiece(p[1..], c, k - 1);
    }
  }
}
