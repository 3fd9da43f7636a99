/** mySplit: splitting at a separator, without empty pieces. */
module Splitting {
  import opened CppStrings
  import opened Strings

  function Keep(piece: string): seq<string> {
    if piece == "" then [] else [piece]
  }

  /** Cut at the leftmost occurrence, drop empty pieces. */
  ghost function Split(s: string, sep: string): seq<string>
    requires |s| < NPOS && sep != ""
    decreases |s|
  {
    var i := Find(s, sep, 0);
    if i == NPOS then Keep(s) else Keep(s[..i]) + Split(s[i + |sep|..], sep)
  }

  // ---- the loop

  lemma OccursFrom(s: string, sep: string, pos: nat, i: nat)
    requires pos <= |s|
    ensures OccursAt(s[pos..], sep, i) <==> OccursAt(s, sep, pos + i)
  {
    if i + |sep| <= |s| - pos {
      assert s[pos..][i..i + |sep|] == s[pos + i..pos + i + |sep|];
    }
  }

  /** Searching from a position is searching the rest. */
  lemma FindFrom(s: string, sep: string, pos: nat)
    requires |s| < NPOS && pos <= |s|
    ensures var r := Find(s[pos..], sep, 0); Find(s, sep, pos) == if r == NPOS then NPOS else pos + r
  {
    var r := Find(s[pos..], sep, 0);
    FindFinds(s[pos..], sep, 0);
    FindFinds(s, sep, pos);
    forall i | pos <= i ensures OccursAt(s, sep, i) <==> OccursAt(s[pos..], sep, i - pos) {
      OccursFrom(s, sep, pos, i - pos);
    }
    if r != NPOS {
      assert OccursAt(s, sep, pos + r);
      FindIs(s, sep, pos, pos + r);
    }
  }

  lemma SplitHit(s: string, sep: string, head: string, rest: string)
    requires |s| < NPOS && sep != "" && s == head + sep + rest && Find(s, sep, 0) == |head|
    ensures Split(s, sep) == Keep(head) + Split(rest, sep)
  {
    assert s[..|head|] == head && s[|head| + |sep|..] == rest;
  }

  lemma SplitMiss(s: string, sep: string)
    requires |s| < NPOS && sep != "" && Find(s, sep, 0) == NPOS
    ensures Split(s, sep) == Keep(s)
  {
  }

  lemma CutThree(s: string, pos: nat, i: nat, j: nat)
    requires pos <= i <= j <= |s|
    ensures s[pos..] == s[pos..i] + s[i..j] + s[j..]
  {
  }

  /** The next piece and what is left, by positions in the whole string. */
  lemma SplitFrom(s: string, sep: string, pos: nat, i: nat)
    requires |s| < NPOS && sep != "" && pos <= |s| && i == Find(s, sep, pos) != NPOS
    ensures Split(s[pos..], sep) == Keep(s[pos..i]) + Split(s[i + |sep|..], sep)
  {
    hide Split;
    FindFrom(s, sep, pos);
    FindFinds(s, sep, pos);
    CutThree(s, pos, i, i + |sep|);
    SplitHit(s[pos..], sep, s[pos..i], s[i + |sep|..]);
  }

  /** A position in a string that an int can measure fits in an int, and npos becomes -1. */
  lemma PositionFits(s: string, sep: string, r: size_t)
    requires |s| <= INT_MAX && (r != NPOS ==> r + |sep| <= |s|)
    ensures ToInt(r) == if r == NPOS then -1 else r
  {
  }

  /** Positions are kept in ints, so no string is longer than an int can say. */
  method MySplit(str: string, sp_string: string) returns (vecString: seq<string>)
    requires |str| <= INT_MAX && sp_string != ""
    ensures vecString == Split(str, sp_string)
  {
    hide Split, Find, ToInt;
    vecString := [];
    var lastPosition: int32 := 0;
    var found := StdFind(str, sp_string, lastPosition);
    PositionFits(str, sp_string, found);
    var index := ToInt(found);
    assert str[0..] == str;
    while -1 != index
      invariant 0 <= lastPosition <= |str|
      invariant found == Find(str, sp_string, lastPosition)
      invariant index == if found == NPOS then -1 else found
      invariant vecString + Split(str[lastPosition..], sp_string) == Split(str, sp_string)
      decreases |str| - lastPosition
    {
      SplitFrom(str, sp_string, lastPosition, index);
      ghost var kept, left := Keep(str[lastPosition..index]), Split(str[index + |sp_string|..], sp_string);
      assert vecString + (kept + left) == (vecString + kept) + left;
      var piece := Substr(str, lastPosition, index - lastPosition);
      if piece != "" {
        vecString := vecString + [piece];
      }
      lastPosition := index + |sp_string|;
      found := StdFind(str, sp_string, lastPosition);
      PositionFits(str, sp_string, found);
      index := ToInt(found);
    }
    FindFrom(str, sp_string, lastPosition);
    SplitMiss(str[lastPosition..], sp_string);
    var lastStr := str[lastPosition..];
    if lastStr != "" {
      vecString := vecString + [lastStr];
    }
  }

  /** Where the loop continues after a hit at or after pos. */
  ghost function Resume(s: string, sep: string, pos: nat): nat
    requires |s| < NPOS && Find(s, sep, pos) != NPOS
  {
    Find(s, sep, pos) + |sep|
  }

  /** The loop ends exactly for non-empty separators: with an empty one every search hits where it
      starts and the position never moves, with any other each hit moves it on within the string. */
  lemma LoopMovesExactlyForNonEmptySeparators(s: string, sep: string)
    requires |s| < NPOS
    ensures sep != "" <==>
      forall pos: nat | pos <= |s| && Find(s, sep, pos) != NPOS :: pos < Resume(s, sep, pos) <= |s|
    ensures sep == "" ==> forall pos: nat | pos <= |s| :: Find(s, sep, pos) != NPOS && Resume(s, sep, pos) == pos
  {
    if sep == "" {
      forall pos: nat | pos <= |s| ensures Find(s, sep, pos) == pos { FindIs(s, sep, pos, pos); }
      assert 0 <= |s| && Find(s, sep, 0) != NPOS && Resume(s, sep, 0) == 0;
    }
  }

  // ---- what the pieces are

  lemma NothingBeforeFirstHit(s: string, sep: string, i: nat)
    requires IsFirst(s, sep, 0, i) && sep != ""
    ensures forall k: nat :: !OccursAt(s[..i], sep, k)
  {
    forall k: nat ensures !OccursAt(s[..i], sep, k) {
      if k + |sep| <= i {
        assert s[..i][k..k + |sep|] == s[k..k + |sep|];
        assert !OccursAt(s, sep, k);
      }
    }
  }

  ghost predicate PieceOf(p: string, s: string, sep: string) {
    p != "" && |p| <= |s| && forall i: nat :: !OccursAt(p, sep, i)
  }

  /** No piece is empty, and no piece contains the separator. */
  lemma {:induction false} PiecesAreClean(s: string, sep: string)
    requires |s| < NPOS && sep != ""
    ensures forall p | p in Split(s, sep) :: PieceOf(p, s, sep)
    decreases |s|
  {
    var i := Find(s, sep, 0);
    FindFinds(s, sep, 0);
    if i != NPOS {
      PiecesAreClean(s[i + |sep|..], sep);
      NothingBeforeFirstHit(s, sep, i);
      assert forall p | p in Split(s, sep) :: p in Keep(s[..i]) || p in Split(s[i + |sep|..], sep);
    }
  }

  /** All pieces, the empty ones included. */
  ghost function Cuts(s: string, sep: string): (parts: seq<string>)
    requires |s| < NPOS && sep != ""
    ensures parts != []
    decreases |s|
  {
    var i := Find(s, sep, 0);
    if i == NPOS then [s] else [s[..i]] + Cuts(s[i + |sep|..], sep)
  }

  function NonEmpty(parts: seq<string>): seq<string> {
    if parts == [] then [] else Keep(parts[0]) + NonEmpty(parts[1..])
  }

  /** Nothing is lost: the pieces are the non-empty ones of a list that joins to the string. */
  lemma {:induction false} SplitLosesOnlyEmpties(s: string, sep: string)
    requires |s| < NPOS && sep != ""
    ensures Join(Cuts(s, sep), sep) == s
    ensures Split(s, sep) == NonEmpty(Cuts(s, sep))
    decreases |s|
  {
    var i := Find(s, sep, 0);
    if i != NPOS {
      var rest := s[i + |sep|..];
      SplitLosesOnlyEmpties(rest, sep);
      FindFinds(s, sep, 0);
      assert Cuts(s, sep)[1..] == Cuts(rest, sep);
      assert s == s[..i] + sep + rest;
    }
  }

  // ---- joining and splitting again

  lemma NoHitMeansClean(p: string, sep: string)
    requires |p| < NPOS && forall i: nat :: !OccursAt(p, sep, i)
    ensures Find(p, sep, 0) == NPOS
  {
    FindFinds(p, sep, 0);
  }

  /** A piece that splitting gives back: not empty, and the separator that follows it is found first. */
  ghost predicate Clean(p: string, sep: string, last: bool)
    requires |p| + |sep| < NPOS
  {
    && p != ""
    && (if last then Find(p, sep, 0) == NPOS else Find(p + sep, sep, 0) == |p|)
  }

  ghost predicate AllClean(parts: seq<string>, sep: string)
    requires forall p | p in parts :: |p| + |sep| < NPOS
  {
    forall i | 0 <= i < |parts| :: Clean(parts[i], sep, i == |parts| - 1)
  }

  lemma {:induction false} PartsAreShort(parts: seq<string>, sep: string)
    requires |Join(parts, sep)| + |sep| < NPOS
    ensures forall p | p in parts :: |p| + |sep| < NPOS
  {
    if |parts| > 1 {
      PartsAreShort(parts[1..], sep);
    }
  }

  /** What follows a piece and its separator does not change where the separator is first found. */
  lemma FirstHitIsLocal(p: string, sep: string, rest: string)
    requires sep != "" && |p + sep + rest| < NPOS
    ensures Find(p + sep + rest, sep, 0) <= |p|
    ensures Find(p + sep, sep, 0) == Find(p + sep + rest, sep, 0)
  {
    var s, t := p + sep + rest, p + sep;
    assert s[|p|..|p| + |sep|] == sep;
    assert OccursAt(s, sep, |p|) && OccursAt(t, sep, |p|);
    forall i | 0 <= i <= |p| ensures OccursAt(s, sep, i) <==> OccursAt(t, sep, i) {
      assert s[i..i + |sep|] == t[i..i + |sep|];
    }
    FindFinds(s, sep, 0);
    FindIs(t, sep, 0, Find(s, sep, 0));
  }

  lemma {:induction false} JoinedIsNoLonger(s: string, sep: string)
    requires |s| < NPOS && sep != ""
    ensures |Join(Split(s, sep), sep)| <= |s|
    decreases |s|
  {
    var i := Find(s, sep, 0);
    if i != NPOS {
      var rest := s[i + |sep|..];
      JoinedIsNoLonger(rest, sep);
      var tail := Split(rest, sep);
      assert Split(s, sep) == Keep(s[..i]) + tail;
      if s[..i] == "" {
        assert Keep(s[..i]) + tail == tail;
      } else if tail != [] {
        assert Split(s, sep) == [s[..i]] + tail;
        assert ([s[..i]] + tail)[1..] == tail;
        assert Join([s[..i]] + tail, sep) == s[..i] + sep + Join(tail, sep);
      }
    }
  }

  /** The leftmost hit bounds what splitting gives: at 0 it costs a separator, later it ends the first piece. */
  lemma HitBoundsSplit(s: string, sep: string)
    requires |s| < NPOS && sep != "" && Find(s, sep, 0) != NPOS
    ensures Find(s, sep, 0) == 0 ==> |Join(Split(s, sep), sep)| < |s|
    ensures Find(s, sep, 0) > 0 ==> Split(s, sep) != [] && |Split(s, sep)[0]| == Find(s, sep, 0)
  {
    hide Split, Find, Join;
    var i := Find(s, sep, 0);
    var rest := s[i + |sep|..];
    FindFinds(s, sep, 0);
    assert s == s[..i] + sep + rest;
    SplitHit(s, sep, s[..i], rest);
    if i == 0 {
      JoinedIsNoLonger(rest, sep);
      assert Split(s, sep) == Split(rest, sep);
    } else {
      assert Split(s, sep)[0] == s[..i];
    }
  }

  lemma SplitFirst(parts: seq<string>, sep: string)
    requires sep != "" && |Join(parts, sep)| + |sep| < NPOS && |parts| > 1
    requires Find(parts[0] + sep, sep, 0) == |parts[0]|
    ensures Split(Join(parts, sep), sep) == Keep(parts[0]) + Split(Join(parts[1..], sep), sep)
  {
    var p, rest := parts[0], Join(parts[1..], sep);
    var s := p + sep + rest;
    FirstHitIsLocal(p, sep, rest);
    assert s[..|p|] == p && s[|p| + |sep|..] == rest;
  }

  lemma {:induction false} CleanPartsComeBack(parts: seq<string>, sep: string)
    requires sep != "" && |Join(parts, sep)| + |sep| < NPOS
    requires forall p | p in parts :: |p| + |sep| < NPOS
    requires AllClean(parts, sep)
    ensures Split(Join(parts, sep), sep) == parts
  {
    if |parts| == 1 {
      assert Clean(parts[0], sep, true);
    } else if |parts| > 1 {
      assert Clean(parts[0], sep, false);
      forall i | 0 <= i < |parts[1..]| ensures Clean(parts[1..][i], sep, i == |parts[1..]| - 1) {
        assert Clean(parts[i + 1], sep, i + 1 == |parts| - 1);
      }
      CleanPartsComeBack(parts[1..], sep);
      SplitFirst(parts, sep);
    }
  }

  /** If the parts come back, the first separator found is the one after the first part. */
  lemma FirstPartEndsAtSeparator(parts: seq<string>, sep: string)
    requires sep != "" && |Join(parts, sep)| + |sep| < NPOS && |parts| > 1
    requires Split(Join(parts, sep), sep) == parts
    ensures Find(parts[0] + sep, sep, 0) == |parts[0]|
  {
    var p, rest := parts[0], Join(parts[1..], sep);
    var s := p + sep + rest;
    FirstHitIsLocal(p, sep, rest);
    HitBoundsSplit(s, sep);
  }

  lemma {:induction false} ReturnedPartsAreClean(parts: seq<string>, sep: string)
    requires sep != "" && |Join(parts, sep)| + |sep| < NPOS
    requires forall p | p in parts :: |p| + |sep| < NPOS
    requires Split(Join(parts, sep), sep) == parts
    ensures AllClean(parts, sep)
  {
    PiecesAreClean(Join(parts, sep), sep);
    if parts != [] { assert parts[0] in parts && PieceOf(parts[0], Join(parts, sep), sep); }
    if |parts| == 1 {
      NoHitMeansClean(parts[0], sep);
    } else if |parts| > 1 {
      FirstPartEndsAtSeparator(parts, sep);
      SplitFirst(parts, sep);
      assert parts == [parts[0]] + parts[1..];
      ReturnedPartsAreClean(parts[1..], sep);
      forall i | 0 <= i < |parts| ensures Clean(parts[i], sep, i == |parts| - 1) {
        if i > 0 { assert Clean(parts[1..][i - 1], sep, i - 1 == |parts[1..]| - 1); }
      }
    }
  }

  /** Splitting undoes joining exactly when no part is empty and each separator is found where it was
      put: for every separator and every list of parts. */
  lemma SplitUndoesJoinExactly(parts: seq<string>, sep: string)
    requires sep != "" && |Join(parts, sep)| + |sep| < NPOS
    requires forall p | p in parts :: |p| + |sep| < NPOS
    ensures Split(Join(parts, sep), sep) == parts <==> AllClean(parts, sep)
  {
    if AllClean(parts, sep) { CleanPartsComeBack(parts, sep); }
    if Split(Join(parts, sep), sep) == parts { ReturnedPartsAreClean(parts, sep); }
  }

  lemma CleanForOneChar(p: string, c: char, last: bool)
    requires |p| + 1 < NPOS
    ensures Clean(p, [c], last) <==> p != "" && c !in p
  {
    var t := if last then p else p + [c];
    forall i | 0 <= i < |t| ensures OccursAt(t, [c], i) <==> t[i] == c {
      assert t[i..i + 1] == [t[i]];
    }
    assert forall i | 0 <= i < |p| :: t[i] == p[i] && p[i] in p;
    FindFinds(t, [c], 0);
    if c in p {
      var i :| 0 <= i < |p| && p[i] == c;
      assert OccursAt(t, [c], i);
    } else if !last {
      assert OccursAt(t, [c], |p|);
    }
  }

  lemma AllCleanForOneChar(parts: seq<string>, c: char)
    requires forall p | p in parts :: |p| + 1 < NPOS
    ensures AllClean(parts, [c]) <==> forall p | p in parts :: p != "" && c !in p
  {
    forall i | 0 <= i < |parts|
      ensures Clean(parts[i], [c], i == |parts| - 1) <==> parts[i] != "" && c !in parts[i]
    {
      CleanForOneChar(parts[i], c, i == |parts| - 1);
    }
    if AllClean(parts, [c]) {
      forall p | p in parts ensures p != "" && c !in p {
        var i :| 0 <= i < |parts| && parts[i] == p;
        assert Clean(parts[i], [c], i == |parts| - 1);
      }
    } else {
      var i :| 0 <= i < |parts| && !Clean(parts[i], [c], i == |parts| - 1);
      assert parts[i] in parts;
    }
  }

  /** For a one-character separator: exactly the non-empty pieces without it come back. */
  lemma SplitUndoesJoinForOneChar(parts: seq<string>, c: char)
    requires |Join(parts, [c])| + 1 < NPOS
    ensures Split(Join(parts, [c]), [c]) == parts <==> forall p | p in parts :: p != "" && c !in p
  {
    PartsAreShort(parts, [c]);
    SplitUndoesJoinExactly(parts, [c]);
    AllCleanForOneChar(parts, c);
  }
}
