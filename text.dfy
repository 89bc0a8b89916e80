/** String helpers shared by the symptom matcher and the chunk packer:
    ASCII lower-casing (Python's `str.lower` restricted to ASCII), the
    substring test behind Python's `p in s`, and `' '.join`. */
module Text {

  /** Python's `str.lower` on one character, restricted to ASCII letters. */
  function LowerChar(c: char): (d: char)
    ensures 'A' <= c <= 'Z' ==> d as int == c as int + 32
    ensures !('A' <= c <= 'Z') ==> d == c
    ensures !('A' <= d <= 'Z')
  {
    if 'A' <= c <= 'Z' then (c as int + 32) as char else c
  }

  /** Python's `s.lower()`, restricted to ASCII letters. */
  function Lower(s: string): (r: string)
    ensures |r| == |s|
    ensures forall i :: 0 <= i < |s| ==> r[i] == LowerChar(s[i])
  {
    seq(|s|, i requires 0 <= i < |s| => LowerChar(s[i]))
  }

  /** Lower-casing commutes with slicing. */
  lemma LowerSlice(s: string, a: nat, b: nat)
    requires a <= b <= |s|
    ensures Lower(s)[a..b] == Lower(s[a..b])
  {
  }

  /** `p` occurs in `s` starting at index `i`. */
  ghost predicate OccursAt(s: string, p: string, i: int)
  {
    0 <= i && i + |p| <= |s| && s[i..i + |p|] == p
  }

  /** The meaning of Python's `p in s` for strings: `p` is a substring of `s`. */
  ghost predicate Occurs(s: string, p: string)
  {
    exists i :: OccursAt(s, p, i)
  }

  /** The characters of `p` from index `k` on agree with `s` from `i + k` on. */
  function MatchesAt(s: string, p: string, i: nat, k: nat): (b: bool)
    requires i + |p| <= |s| && k <= |p|
    ensures b <==> forall m :: k <= m < |p| ==> s[i + m] == p[m]
    decreases |p| - k
  {
    if k == |p| then true
    else if s[i + k] != p[k] then false
    else MatchesAt(s, p, i, k + 1)
  }

  /** `p` occurs in `s` at some index `i` or later. */
  function ContainsFrom(s: string, p: string, i: nat): (b: bool)
    ensures b <==> exists j :: i <= j && OccursAt(s, p, j)
    decreases |s| - i
  {
    if i + |p| > |s| then
      false
    else if MatchesAt(s, p, i, 0) then
      assert OccursAt(s, p, i) by {
        var w := s[i..i + |p|];
        assert forall m | 0 <= m < |p| :: w[m] == p[m];
      }
      true
    else
      ContainsFrom(s, p, i + 1)
  }

  /** Executable substring test, Python's `p in s`. */
  function Contains(s: string, p: string): (b: bool)
    ensures b <==> Occurs(s, p)
  {
    ContainsFrom(s, p, 0)
  }

  /** Python's `' '.join(parts)`. */
  function JoinSpace(parts: seq<string>): string
  {
    if |parts| == 0 then ""
    else if |parts| == 1 then parts[0]
    else JoinSpace(parts[..|parts| - 1]) + " " + parts[|parts| - 1]
  }

  /** The pieces with one separator between each neighbouring pair:
      `pieces[0] + seps[0] + pieces[1] + … + pieces[n - 1]`. */
  function Interleave(pieces: seq<string>, seps: seq<string>): string
    requires |pieces| >= 1 && |seps| == |pieces| - 1
    decreases |pieces|
  {
    if |pieces| == 1 then pieces[0] else pieces[0] + seps[0] + Interleave(pieces[1..], seps[1..])
  }

  /** `n` single-space separators. */
  function SingleSpaces(n: nat): (seps: seq<string>)
    ensures |seps| == n && forall i :: 0 <= i < n ==> seps[i] == " "
  {
    seq(n, _ => " ")
  }

  /** Adding a piece at the end appends its separator and the piece. */
  lemma {:induction false} InterleaveAppend(pieces: seq<string>, seps: seq<string>, sep: string, piece: string)
    requires |pieces| >= 1 && |seps| == |pieces| - 1
    ensures Interleave(pieces + [piece], seps + [sep]) == Interleave(pieces, seps) + sep + piece
    decreases |pieces|
  {
    var ps := pieces + [piece];
    var ss := seps + [sep];
    if |pieces| == 1 {
      assert ps[1..] == [piece] && ss[1..] == [];
    } else {
      InterleaveAppend(pieces[1..], seps[1..], sep, piece);
      assert ps[1..] == pieces[1..] + [piece] && ss[1..] == seps[1..] + [sep];
    }
  }

  /** `' '.join(parts)` is the parts with a single space between each pair. */
  lemma {:induction false} JoinSpaceIsInterleave(parts: seq<string>)
    requires parts != []
    ensures JoinSpace(parts) == Interleave(parts, SingleSpaces(|parts| - 1))
  {
    if |parts| > 1 {
      var init := parts[..|parts| - 1];
      var last := parts[|parts| - 1];
      JoinSpaceIsInterleave(init);
      InterleaveAppend(init, SingleSpaces(|init| - 1), " ", last);
      assert init + [last] == parts;
      assert SingleSpaces(|init| - 1) + [" "] == SingleSpaces(|parts| - 1);
    }
  }

  /** Sum of the lengths of `parts`, spaces not counted. */
  function SumLen(parts: seq<string>): nat
  {
    if parts == [] then 0 else SumLen(parts[..|parts| - 1]) + |parts[|parts| - 1]|
  }

  /** A joined chunk is exactly its parts' lengths plus one space between each pair. */
  lemma {:induction false} JoinSpaceLength(parts: seq<string>)
    requires parts != []
    ensures |JoinSpace(parts)| == SumLen(parts) + |parts| - 1
  {
    if |parts| > 1 {
      var init := parts[..|parts| - 1];
      JoinSpaceLength(init);
      assert init[..|init| - 1] == parts[..|parts| - 2];
      if |init| == 1 {
        assert SumLen(init) == SumLen([]) + |init[0]|;
      }
    } else {
      assert parts[..0] == [];
    }
  }

  /** `SumLen` distributes over concatenation. */
  lemma {:induction false} SumLenAppend(a: seq<string>, b: seq<string>)
    ensures SumLen(a + b) == SumLen(a) + SumLen(b)
    decreases |b|
  {
    if b == [] {
      assert a + b == a;
    } else {
      var b' := b[..|b| - 1];
      SumLenAppend(a, b');
      assert (a + b)[..|a + b| - 1] == a + b';
    }
  }
}
