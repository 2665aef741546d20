/**
 * `String.split(" *, *")` as the Java runtime performs it on an environment
 * list: the regex is searched left to right; each match is a comma together
 * with the spaces directly around it; the text between matches becomes the
 * pieces; with no match at all the result is the whole input (so "" gives
 * [""]); otherwise trailing empty pieces are dropped while leading ones stay.
 */
module JavaSplit {
  import opened Wrappers

  /** Position of the first ',' in `s`. */
  function FirstComma(s: string): (r: Option<nat>)
    ensures r.Some? ==> r.value < |s| && s[r.value] == ','
    ensures r.Some? ==> forall j :: 0 <= j < r.value ==> s[j] != ','
    ensures r.None? ==> forall j :: 0 <= j < |s| ==> s[j] != ','
    decreases |s|
  {
    if s == [] then None
    else if s[0] == ',' then Some(0)
    else
      var rest := FirstComma(s[1..]);
      if rest.Some? then Some(rest.value + 1) else None
  }

  lemma FirstCommaIs(s: string, c: nat)
    requires c < |s| && s[c] == ','
    requires forall j :: 0 <= j < c ==> s[j] != ','
    ensures FirstComma(s) == Some(c)
  {
  }

  /**
   * Where a match ending in the comma at `c` begins: the leftmost match takes
   * every space directly before that comma.
   */
  function SpacesBefore(s: string, c: nat): (m: nat)
    requires c <= |s|
    ensures m <= c && forall j :: m <= j < c ==> s[j] == ' '
    ensures m == 0 || s[m - 1] != ' '
    decreases c
  {
    if c > 0 && s[c - 1] == ' ' then SpacesBefore(s, c - 1) else c
  }

  /** Where a match that has consumed its comma ends: ` *` is greedy. */
  function SpacesAfter(s: string, i: nat): (e: nat)
    requires i <= |s|
    ensures i <= e <= |s| && forall j :: i <= j < e ==> s[j] == ' '
    ensures e == |s| || s[e] != ' '
    decreases |s| - i
  {
    if i < |s| && s[i] == ' ' then SpacesAfter(s, i + 1) else i
  }

  /** The text before, between and after the matches, empty pieces included. */
  function Pieces(s: string): seq<string>
    decreases |s|
  {
    var c := FirstComma(s);
    if c.None? then [s]
    else [s[..SpacesBefore(s, c.value)]] + Pieces(s[SpacesAfter(s, c.value + 1)..])
  }

  /** Drops the empty strings at the end, as a zero split limit asks. */
  function DropTrailingEmpty(xs: seq<string>): (r: seq<string>)
    ensures r <= xs && (r == [] || r[|r| - 1] != "")
    ensures forall i :: |r| <= i < |xs| ==> xs[i] == ""
    decreases |xs|
  {
    if xs == [] || xs[|xs| - 1] != "" then xs else DropTrailingEmpty(xs[..|xs| - 1])
  }

  function Split(s: string): (parts: seq<string>)
    ensures (forall j :: 0 <= j < |s| ==> s[j] != ',') ==> parts == [s]
  {
    if FirstComma(s).None? then [s] else DropTrailingEmpty(Pieces(s))
  }

  predicate NoComma(x: string) {
    forall j :: 0 <= j < |x| ==> x[j] != ','
  }

  lemma {:induction false} PiecesHaveNoComma(s: string)
    ensures forall i :: 0 <= i < |Pieces(s)| ==> NoComma(Pieces(s)[i])
    decreases |s|
  {
    var c := FirstComma(s);
    if c.Some? {
      var m := SpacesBefore(s, c.value);
      var rest := s[SpacesAfter(s, c.value + 1)..];
      PiecesHaveNoComma(rest);
      assert Pieces(s) == [s[..m]] + Pieces(rest);
    }
  }

  /** No part of a split holds a comma. */
  lemma SplitHasNoComma(s: string)
    ensures forall i :: 0 <= i < |Split(s)| ==> NoComma(Split(s)[i])
  {
    PiecesHaveNoComma(s);
    if FirstComma(s).Some? {
      assert Split(s) <= Pieces(s);
    }
  }

  /** A split that found a comma never ends with an empty part. */
  lemma SplitEndsNonEmpty(s: string)
    requires FirstComma(s).Some?
    ensures Split(s) == [] || Split(s)[|Split(s)| - 1] != ""
  {
  }

  /** The names joined back with plain commas. */
  function Join(xs: seq<string>): string
    requires xs != []
    decreases |xs|
  {
    if |xs| == 1 then xs[0] else xs[0] + "," + Join(xs[1..])
  }

  /**
   * Names a split gives back unchanged: none holds a comma, none after the
   * first starts with a space and none before the last ends with one.
   */
  predicate Separable(xs: seq<string>) {
    && xs != []
    && (forall i :: 0 <= i < |xs| ==> NoComma(xs[i]))
    && (forall i :: 0 < i < |xs| && xs[i] != "" ==> xs[i][0] != ' ')
    && (forall i :: 0 <= i < |xs| - 1 && xs[i] != "" ==> xs[i][|xs[i]| - 1] != ' ')
  }

  lemma JoinHead(xs: seq<string>)
    requires xs != [] && (xs[0] != "" ==> xs[0][0] != ' ')
    ensures Join(xs) != "" ==> Join(xs)[0] != ' '
  {
    if |xs| > 1 && xs[0] == "" {
      assert Join(xs)[0] == ',';
    }
  }

  /** One name, a comma, and the rest: the name is the first piece. */
  lemma PiecesOfCons(x: string, tail: string)
    requires NoComma(x) && (x != "" ==> x[|x| - 1] != ' ')
    requires tail != "" ==> tail[0] != ' '
    ensures Pieces(x + "," + tail) == [x] + Pieces(tail)
  {
    var s := x + "," + tail;
    var c := |x|;
    assert s[..c] == x && s[c + 1..] == tail;
    assert FirstComma(s) == Some(c) by {
      assert s[c] == ',';
      assert forall j :: 0 <= j < c ==> s[j] == x[j];
      FirstCommaIs(s, c);
    }
    assert SpacesBefore(s, c) == c by {
      if c > 0 {
        assert s[c - 1] == x[c - 1];
      }
    }
    assert SpacesAfter(s, c + 1) == c + 1 by {
      if c + 1 < |s| {
        assert s[c + 1] == tail[0];
      }
    }
  }

  lemma {:induction false} PiecesOfJoin(xs: seq<string>)
    requires Separable(xs)
    ensures Pieces(Join(xs)) == xs
    decreases |xs|
  {
    if |xs| == 1 {
      assert FirstComma(Join(xs)).None?;
    } else {
      var rest := xs[1..];
      assert Separable(rest);
      JoinHead(rest);
      PiecesOfCons(xs[0], Join(rest));
      PiecesOfJoin(rest);
    }
  }

  /**
   * Splitting names joined with commas gives the names back, provided the
   * last one is not empty (a split drops trailing empty parts).
   */
  lemma SplitJoin(xs: seq<string>)
    requires Separable(xs) && (|xs| == 1 || xs[|xs| - 1] != "")
    ensures Split(Join(xs)) == xs
  {
    PiecesOfJoin(xs);
    if |xs| > 1 {
      var s := Join(xs);
      assert s[|xs[0]|] == ',';
    }
  }
}
