/**
 * The two pieces of java.lang.String behaviour the core relies on: `replaceAll("\\.?0*$", "")`,
 * the body of LatLong.formatWithoutTrailingZeros, and `split` on a one-character separator.
 */
module JavaText {

  predicate AllZeros(s: string)
  {
    forall i :: 0 <= i < |s| ==> s[i] == '0'
  }

  /** The whole of s matches the regular expression `\.?0*`. */
  predicate MatchesDotZeros(s: string)
  {
    AllZeros(s) || (|s| > 0 && s[0] == '.' && AllZeros(s[1..]))
  }

  /**
   * `s.replaceAll("\\.?0*$", "")`: the regex engine tries start positions from the left, and the
   * first one whose suffix matches `\.?0*` up to the end is deleted (the empty match that follows
   * at the end deletes nothing).
   */
  function StripTrailingZeros(s: string): (r: string)
    ensures r <= s
    ensures MatchesDotZeros(s[|r|..])
  {
    if MatchesDotZeros(s) then "" else [s[0]] + StripTrailingZeros(s[1..])
  }

  /** The suffix deleted is the leftmost one that matches: no longer suffix matches `\.?0*`. */
  lemma {:induction false} StripIsLeftmost(s: string, p: nat)
    requires p < |StripTrailingZeros(s)|
    ensures !MatchesDotZeros(s[p..])
  {
    if p > 0 {
      StripIsLeftmost(s[1..], p - 1);
      assert s[1..][p - 1..] == s[p..];
    }
  }

  /** A string that does not end in `0` or `.` is left unchanged. */
  lemma {:induction false} StripKeepsNonZeroEnding(s: string)
    requires s != [] && s[|s| - 1] != '0' && s[|s| - 1] != '.'
    ensures StripTrailingZeros(s) == s
  {
    var r := StripTrailingZeros(s);
    var tail := s[|r|..];
    if tail != [] {
      assert false;
    }
  }

  /** A suffix that starts inside `prefix` and does not match `\.?0*` is kept: only `rest` is stripped. */
  lemma {:induction false} StripAppend(prefix: string, rest: string)
    requires forall p :: 0 <= p < |prefix| ==> !MatchesDotZeros((prefix + rest)[p..])
    ensures StripTrailingZeros(prefix + rest) == prefix + StripTrailingZeros(rest)
  {
    if prefix != [] {
      var s := prefix + rest;
      assert s[0..] == s;
      assert s[1..] == prefix[1..] + rest;
      forall p | 0 <= p < |prefix[1..]|
        ensures !MatchesDotZeros((prefix[1..] + rest)[p..])
      {
        assert (prefix[1..] + rest)[p..] == s[p + 1..];
      }
      assert !MatchesDotZeros(s[0..]);
      StripAppend(prefix[1..], rest);
    } else {
      assert prefix + rest == rest;
    }
  }

  // ---------------------------------------------------------------------------------------------
  // String.split on a single character

  /** Every piece between separators, empty ones included (`split(regex, -1)`). */
  function Pieces(s: string, sep: char): (r: seq<string>)
    ensures |r| >= 1
    ensures forall i :: 0 <= i < |r| ==> sep !in r[i]
    ensures Join(r, sep) == s
  {
    if s == [] then [""]
    else if s[0] == sep then
      var rest := Pieces(s[1..], sep);
      assert [s[0]] + s[1..] == s;
      [""] + rest
    else
      var rest := Pieces(s[1..], sep);
      var r := [[s[0]] + rest[0]] + rest[1..];
      assert r[1..] == rest[1..];
      assert [s[0]] + s[1..] == s;
      JoinExtendsFirst(s[0], rest, sep);
      r
  }

  /** The inverse of Pieces: the pieces glued back together with the separator. */
  function Join(pieces: seq<string>, sep: char): string
    requires |pieces| >= 1
  {
    if |pieces| == 1 then pieces[0] else pieces[0] + [sep] + Join(pieces[1..], sep)
  }

  /** Putting a character in front of the first piece puts it in front of the joined text. */
  lemma JoinExtendsFirst(c: char, pieces: seq<string>, sep: char)
    requires |pieces| >= 1
    ensures Join([[c] + pieces[0]] + pieces[1..], sep) == [c] + Join(pieces, sep)
  {
    var r := [[c] + pieces[0]] + pieces[1..];
    assert r[0] == [c] + pieces[0] && r[1..] == pieces[1..];
    if |pieces| > 1 {
      assert Join(r, sep) == [c] + pieces[0] + [sep] + Join(pieces[1..], sep);
    }
  }

  /** The position of the first `c` in s, or |s| when there is none. */
  function IndexOf(s: string, c: char): (k: nat)
    ensures k <= |s| && c !in s[..k]
    ensures k < |s| ==> s[k] == c
  {
    if s == [] || s[0] == c then 0
    else
      var k := 1 + IndexOf(s[1..], c);
      assert s[..k] == [s[0]] + s[1..][..k - 1];
      k
  }

  /** `split` with limit 0 removes every trailing empty string. */
  function DropTrailingEmpty(pieces: seq<string>): (r: seq<string>)
    ensures r <= pieces
    ensures r != [] ==> r[|r| - 1] != ""
    ensures forall i :: |r| <= i < |pieces| ==> pieces[i] == ""
  {
    if pieces == [] then []
    else if pieces[|pieces| - 1] == "" then DropTrailingEmpty(pieces[..|pieces| - 1])
    else pieces
  }

  /**
   * `s.split(String.valueOf(sep))`: when the separator does not occur the result is `[s]`, even
   * for the empty string; otherwise the pieces without the trailing empty ones.
   */
  function Split(s: string, sep: char): (r: seq<string>)
    ensures sep !in s ==> r == [s]
    ensures forall i :: 0 <= i < |r| ==> sep !in r[i]
    ensures r != [] ==> Join(r, sep) <= s && forall i :: |Join(r, sep)| <= i < |s| ==> s[i] == sep
    ensures r == [] ==> forall i :: 0 <= i < |s| ==> s[i] == sep
  {
    if sep !in s then [s]
    else
      var pieces := Pieces(s, sep);
      var r := DropTrailingEmpty(pieces);
      if r == [] then
        JoinOfEmpties(pieces, sep);
        r
      else
        assert r == pieces[..|r|];
        JoinOfEmptyTail(pieces, |r|, sep);
        r
  }

  /** Empty pieces join to nothing but separators. */
  lemma {:induction false} JoinOfEmpties(pieces: seq<string>, sep: char)
    requires |pieces| >= 1 && forall i :: 0 <= i < |pieces| ==> pieces[i] == ""
    ensures forall i :: 0 <= i < |Join(pieces, sep)| ==> Join(pieces, sep)[i] == sep
  {
    if |pieces| > 1 {
      JoinOfEmpties(pieces[1..], sep);
      assert Join(pieces, sep) == [sep] + Join(pieces[1..], sep);
    }
  }

  /** Leaving out trailing empty pieces leaves out only trailing separators. */
  lemma {:induction false} JoinOfEmptyTail(pieces: seq<string>, k: nat, sep: char)
    requires 1 <= k <= |pieces| && forall i :: k <= i < |pieces| ==> pieces[i] == ""
    ensures Join(pieces[..k], sep) <= Join(pieces, sep)
    ensures forall i :: |Join(pieces[..k], sep)| <= i < |Join(pieces, sep)| ==> Join(pieces, sep)[i] == sep
  {
    if k == |pieces| {
      assert pieces[..k] == pieces;
    } else if k == 1 {
      JoinOfEmpties(pieces[1..], sep);
      assert Join(pieces, sep) == pieces[0] + [sep] + Join(pieces[1..], sep);
    } else {
      JoinOfEmptyTail(pieces[1..], k - 1, sep);
      assert pieces[..k][1..] == pieces[1..][..k - 1];
      assert Join(pieces[..k], sep) == pieces[0] + [sep] + Join(pieces[1..][..k - 1], sep);
      assert Join(pieces, sep) == pieces[0] + [sep] + Join(pieces[1..], sep);
    }
  }

  /** Pieces of a string made of one separator-free piece and a separator. */
  lemma {:induction false} PiecesCons(head: string, sep: char, tail: string)
    requires sep !in head
    ensures Pieces(head + [sep] + tail, sep) == [head] + Pieces(tail, sep)
    decreases |head|
  {
    var s := head + [sep] + tail;
    if head == [] {
      assert s == [sep] + tail;
      assert s[1..] == tail;
    } else {
      assert s[0] == head[0] != sep;
      assert s[1..] == head[1..] + [sep] + tail;
      PiecesCons(head[1..], sep, tail);
      var rest := Pieces(s[1..], sep);
      assert rest[0] == head[1..] && rest[1..] == Pieces(tail, sep);
      assert [s[0]] + rest[0] == head;
    }
  }

  lemma PiecesOfPlain(s: string, sep: char)
    requires sep !in s
    ensures Pieces(s, sep) == [s]
    decreases |s|
  {
    if s != [] {
      PiecesOfPlain(s[1..], sep);
      assert [s[0]] + s[1..] == s;
    }
  }

  /**
   * Splitting `first<sep>second…` keeps `first` and `second` as the first two fields whatever
   * follows them, as long as `second` is not empty and so survives the removal of trailing empty
   * strings.
   */
  lemma {:induction false} SplitFirstTwo(first: string, second: string, sep: char, tail: string)
    requires sep !in first && sep !in second && second != ""
    requires tail == [] || tail[0] == sep
    ensures |Split(first + [sep] + second + tail, sep)| >= 2
    ensures Split(first + [sep] + second + tail, sep)[..2] == [first, second]
  {
    var s := first + [sep] + second + tail;
    FirstTwoPieces(first, second, sep, tail);
    var pieces := Pieces(s, sep);
    assert s[|first|] == sep;
    assert pieces[1] == second != "";
    var r := DropTrailingEmpty(pieces);
    assert Split(s, sep) == r;
    assert |r| >= 2;
    assert r[..2] == pieces[..2] == [first, second];
  }

  /** The pieces of `first<sep>second…` begin with `first` and `second`. */
  lemma FirstTwoPieces(first: string, second: string, sep: char, tail: string)
    requires sep !in first && sep !in second
    requires tail == [] || tail[0] == sep
    ensures |Pieces(first + [sep] + second + tail, sep)| >= 2
    ensures Pieces(first + [sep] + second + tail, sep)[0] == first
    ensures Pieces(first + [sep] + second + tail, sep)[1] == second
  {
    var s := first + [sep] + second + tail;
    assert s == first + [sep] + (second + tail);
    PiecesCons(first, sep, second + tail);
    var rest := Pieces(second + tail, sep);
    if tail == [] {
      assert second + tail == second;
      PiecesOfPlain(second, sep);
    } else {
      assert second + tail == second + [sep] + tail[1..];
      PiecesCons(second, sep, tail[1..]);
    }
    assert rest[0] == second;
    assert Pieces(s, sep) == [first] + rest;
  }
}
