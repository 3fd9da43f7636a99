/** Trim, TrimRight and ClearHeadTailSpace. */
module Trimming {
  import opened CppStrings

  function Trim(str: string, delimit: string): string
    requires |str| < NPOS
  {
    var begin := FirstNotOf(str, delimit);
    if begin == NPOS then "" else
    var end := LastNotOf(str, delimit);
    Substr(str, begin, Add(Sub(end, begin), 1))
  }

  function TrimRight(str: string, delimit: string): string
    requires |str| < NPOS
  {
    var end := LastNotOf(str, delimit);
    if end == NPOS then "" else Substr(str, 0, end)
  }

  /** A std::string that is edited in place. */
  class StringRef {
    var str: string

    constructor (s: string)
      ensures str == s
    {
      str := s;
    }

    /** erase(pos, n): removes at most n characters from pos. */
    method Erase(pos: nat, n: nat)
      requires pos <= |str|
      modifies this
      ensures str == Erased(old(str), pos, n)
    {
      str := Erased(str, pos, n);
    }

    /** The position of the second erase is npos + 1, so 0, when the first one left nothing. */
    method ClearHeadTailSpace()
      requires |str| < NPOS
      modifies this
      ensures str == Trim(old(str), " ")
    {
      hide Erased, Trim, FirstNotOf, LastNotOf;
      if str == "" {
        EmptyIsTrimmed(" ");
        return;
      }
      ErasingTrims(str, " ");
      Erase(0, FirstNotOf(str, " "));
      Erase(Add(LastNotOf(str, " "), 1), NPOS);
    }
  }

  function Erased(s: string, pos: nat, n: nat): (t: string)
    requires pos <= |s|
    ensures |t| <= |s|
  {
    s[..pos] + s[pos + |Substr(s, pos, n)|..]
  }

  lemma EmptyIsTrimmed(delimit: string)
    ensures Trim("", delimit) == ""
  {
  }

  /** The two erases leave what Trim returns. */
  lemma ErasingTrims(s: string, delimit: string)
    requires |s| < NPOS
    ensures var t := Erased(s, 0, FirstNotOf(s, delimit));
      var cut := Add(LastNotOf(t, delimit), 1);
      cut <= |t| && Erased(t, cut, NPOS) == Trim(s, delimit)
  {
    hide Erased, Trim, FirstNotOf, LastNotOf;
    HeadGone(s, delimit);
    ErasedHead(s, FirstNotOf(s, delimit));
    var t := Erased(s, 0, FirstNotOf(s, delimit));
    ErasedTail(t, Add(LastNotOf(t, delimit), 1));
  }

  /** What erasing n characters from the head leaves; npos erases all. */
  lemma ErasedHead(s: string, n: nat)
    requires |s| < NPOS && (n <= |s| || n == NPOS)
    ensures Erased(s, 0, n) == if n == NPOS then "" else s[n..]
  {
  }

  lemma ErasedTail(s: string, pos: nat)
    requires |s| < NPOS && pos <= |s|
    ensures Erased(s, pos, NPOS) == s[..pos]
  {
  }

  /** Dropping leading characters moves the last kept character along. */
  lemma LastInTail(s: string, delimit: string, begin: nat)
    requires |s| < NPOS && begin < |s| && s[begin] !in delimit
    ensures LastNotOf(s, delimit) != NPOS && begin <= LastNotOf(s, delimit)
    ensures LastNotOf(s[begin..], delimit) == LastNotOf(s, delimit) - begin
  {
    var t, end, last := s[begin..], LastNotOf(s, delimit), LastNotOf(s[begin..], delimit);
    assert t[0] == s[begin];
    assert t[end - begin] == s[end];
    assert t[last] == s[begin + last];
  }

  /** After the first erase: where the last kept character is, and what remains up to it. */
  lemma HeadGone(s: string, delimit: string)
    requires |s| < NPOS
    ensures FirstNotOf(s, delimit) == NPOS || FirstNotOf(s, delimit) <= |s|
    ensures var begin := FirstNotOf(s, delimit);
      var t := if begin == NPOS then "" else s[begin..];
      var cut := Add(LastNotOf(t, delimit), 1);
      cut <= |t| && t[..cut] == Trim(s, delimit)
  {
    var begin := FirstNotOf(s, delimit);
    if begin != NPOS {
      LastInTail(s, delimit, begin);
      var end := LastNotOf(s, delimit);
      assert Trim(s, delimit) == s[begin..end + 1];
      assert s[begin..][..end - begin + 1] == s[begin..end + 1];
    }
  }

  // ---- what trimming is for

  predicate Only(s: string, delimit: string) {
    forall c | c in s :: c in delimit
  }

  /** mid stands in s between delimiters only. */
  predicate Around(s: string, delimit: string, l: string, mid: string, r: string) {
    s == l + mid + r && Only(l, delimit) && Only(r, delimit)
  }

  /** No delimiter stands at either end. */
  predicate BareEnds(mid: string, delimit: string) {
    mid != "" ==> mid[0] !in delimit && mid[|mid| - 1] !in delimit
  }

  /** mid is s without delimiters at its head and tail: everything around it is delimiters, and it has
      none at either end. */
  ghost predicate IsMiddle(s: string, delimit: string, mid: string) {
    BareEnds(mid, delimit) && exists l, r :: Around(s, delimit, l, mid, r)
  }

  /** A string of which the first a and all after the first b characters are delimiters. */
  lemma CutAround(s: string, delimit: string, a: nat, b: nat)
    requires a <= b <= |s|
    requires forall k | 0 <= k < a :: s[k] in delimit
    requires forall k | b <= k < |s| :: s[k] in delimit
    ensures Around(s, delimit, s[..a], s[a..b], s[b..])
  {
    var r := s[b..];
    forall c | c in r ensures c in delimit {
      var k :| 0 <= k < |r| && r[k] == c;
      assert s[b + k] == c;
    }
  }

  lemma MiddleBy(s: string, delimit: string, l: string, mid: string, r: string)
    requires Around(s, delimit, l, mid, r) && BareEnds(mid, delimit)
    ensures IsMiddle(s, delimit, mid)
  {
  }

  /** A string of delimiters only is trimmed to nothing. */
  lemma NothingLeft(s: string, delimit: string)
    requires |s| < NPOS && FirstNotOf(s, delimit) == NPOS
    ensures Trim(s, delimit) == "" && BareEnds("", delimit) && Around(s, delimit, s, "", "")
  {
    hide FirstNotFrom;
    assert s == s + "" + "";
  }

  /** Trim returns the middle of a string. */
  lemma TrimIsMiddle(s: string, delimit: string)
    requires |s| < NPOS
    ensures IsMiddle(s, delimit, Trim(s, delimit))
  {
    hide Around, BareEnds, IsMiddle, Trim, FirstNotFrom, LastNotBefore, Only;
    var begin, end := FirstNotOf(s, delimit), LastNotOf(s, delimit);
    if begin == NPOS {
      NothingLeft(s, delimit);
      MiddleBy(s, delimit, s, "", "");
    } else {
      TrimCuts(s, delimit);
      CutAround(s, delimit, begin, end + 1);
      MiddleBy(s, delimit, s[..begin], s[begin..end + 1], s[end + 1..]);
    }
  }

  /** What is left between the first and the last character that is no delimiter. */
  lemma TrimCuts(s: string, delimit: string)
    requires |s| < NPOS && FirstNotOf(s, delimit) != NPOS
    ensures var begin, end := FirstNotOf(s, delimit), LastNotOf(s, delimit);
      && begin <= end < |s| && Trim(s, delimit) == s[begin..end + 1]
      && BareEnds(s[begin..end + 1], delimit)
  {
    hide FirstNotFrom, LastNotBefore;
    var begin, end := FirstNotOf(s, delimit), LastNotOf(s, delimit);
    assert end != NPOS && begin <= end;
    assert s[begin..end + 1][0] == s[begin] && s[begin..end + 1][end - begin] == s[end];
  }

  /** How much of a string is delimiters at its head is fixed by its middle. */
  lemma MiddleStart(s: string, delimit: string, l: string, mid: string, r: string)
    requires Around(s, delimit, l, mid, r) && mid != "" && BareEnds(mid, delimit)
    ensures forall i | 0 <= i < |s| && s[i] !in delimit :: |l| <= i < |l| + |mid|
    ensures s[|l|] !in delimit && s[|l| + |mid| - 1] !in delimit
  {
    assert forall i | 0 <= i < |l| :: s[i] == l[i] && l[i] in l;
    assert forall i | |l| + |mid| <= i < |s| :: s[i] == r[i - |l| - |mid|] && r[i - |l| - |mid|] in r;
  }

  /** With an empty middle, all is delimiters. */
  lemma NoMiddle(s: string, delimit: string, l: string, r: string)
    requires Around(s, delimit, l, "", r)
    ensures forall i | 0 <= i < |s| :: s[i] in delimit
  {
    assert forall i | 0 <= i < |l| :: s[i] == l[i] && l[i] in l;
    assert forall i | |l| <= i < |s| :: s[i] == r[i - |l|] && r[i - |l|] in r;
  }

  /** A string has one middle only. */
  lemma MiddleIsUnique(s: string, delimit: string, a: string, b: string)
    requires IsMiddle(s, delimit, a) && IsMiddle(s, delimit, b)
    ensures a == b
  {
    var l, r :| Around(s, delimit, l, a, r);
    var l', r' :| Around(s, delimit, l', b, r');
    if a == "" {
      NoMiddle(s, delimit, l, r);
    } else {
      MiddleStart(s, delimit, l, a, r);
    }
    if b == "" {
      NoMiddle(s, delimit, l', r');
    } else {
      MiddleStart(s, delimit, l', b, r');
    }
    if a != "" && b != "" {
      assert |l| == |l'| && |a| == |b|;
      assert a == s[|l|..|l| + |a|] == b;
    }
  }

  /** Trim is exactly the function that returns the middle. */
  lemma TrimExactly(s: string, delimit: string, mid: string)
    requires |s| < NPOS
    ensures mid == Trim(s, delimit) <==> IsMiddle(s, delimit, mid)
  {
    TrimIsMiddle(s, delimit);
    if IsMiddle(s, delimit, mid) { MiddleIsUnique(s, delimit, mid, Trim(s, delimit)); }
  }

  /** s without the delimiters at its tail. */
  ghost predicate IsHead(s: string, delimit: string, head: string) {
    (head != "" ==> head[|head| - 1] !in delimit) && exists r :: Before(s, delimit, head, r)
  }

  /** After head there are delimiters only. */
  predicate Before(s: string, delimit: string, head: string, r: string) {
    s == head + r && Only(r, delimit)
  }

  /** A string with a character that is no delimiter: TrimRight stops before the last of them. */
  lemma TrimRightCuts(s: string, delimit: string)
    requires |s| < NPOS && LastNotOf(s, delimit) != NPOS
    ensures var end := LastNotOf(s, delimit);
      && end < |s| && s[end] !in delimit && TrimRight(s, delimit) == s[..end]
      && Before(s, delimit, s[..end + 1], s[end + 1..])
  {
    hide LastNotBefore;
    var r := s[LastNotOf(s, delimit) + 1..];
    forall c | c in r ensures c in delimit {
      var k :| 0 <= k < |r| && r[k] == c;
      assert s[LastNotOf(s, delimit) + 1 + k] == c;
    }
  }

  lemma HeadBy(s: string, delimit: string, head: string, r: string)
    requires Before(s, delimit, head, r) && (head != "" ==> head[|head| - 1] !in delimit)
    ensures IsHead(s, delimit, head)
  {
  }

  /** A head ends behind every character that is no delimiter. */
  lemma HeadReaches(s: string, delimit: string, head: string, k: nat)
    requires IsHead(s, delimit, head) && k < |s| && s[k] !in delimit
    ensures k < |head|
  {
    var r :| Before(s, delimit, head, r);
    forall i | |head| <= i < |s| ensures s[i] in delimit {
      assert s[i] == r[i - |head|] && r[i - |head|] in r;
    }
  }

  /** TrimRight does not do what its name says: it removes the tail delimiters and one character more,
      so it is right exactly for strings of delimiters only. */
  lemma TrimRightExactly(s: string, delimit: string)
    requires |s| < NPOS
    ensures IsHead(s, delimit, TrimRight(s, delimit)) <==> Only(s, delimit)
    ensures !Only(s, delimit) ==> exists c :: IsHead(s, delimit, TrimRight(s, delimit) + [c])
  {
    hide IsHead, Before, LastNotBefore;
    var end := LastNotOf(s, delimit);
    if end == NPOS {
      AllDelimiters(s, delimit);
      HeadBy(s, delimit, "", s);
    } else {
      TrimRightCuts(s, delimit);
      HeadBy(s, delimit, s[..end + 1], s[end + 1..]);
      assert s[..end + 1] == TrimRight(s, delimit) + [s[end]];
      assert s[end] in s;
      if IsHead(s, delimit, TrimRight(s, delimit)) { HeadReaches(s, delimit, TrimRight(s, delimit), end); }
    }
  }

  lemma AllDelimiters(s: string, delimit: string)
    requires |s| < NPOS && LastNotOf(s, delimit) == NPOS
    ensures Only(s, delimit) && Before(s, delimit, "", s)
  {
    hide LastNotBefore;
    forall c | c in s ensures c in delimit {
      var k :| 0 <= k < |s| && s[k] == c;
    }
  }
}
