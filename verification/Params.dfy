/** parseParam: a query string into a map. */
module Params {
  import opened CppStrings
  import opened Splitting
  import opened Strings

  /** The name in a piece: everything before the first '=', or the whole piece. */
  ghost function Name(piece: string): string
    requires |piece| < NPOS
  {
    Substr(piece, 0, Find(piece, "=", 0))
  }

  /** The value in a piece: everything after the first '='. Without one, npos + 1 wraps to 0 and the
      value is the whole piece. */
  ghost function Value(piece: string): string
    requires |piece| < NPOS
  {
    ValueIsInRange(piece);
    Substr(piece, Add(Find(piece, "=", 0), 1), NPOS)
  }

  /** The position computed for the value is never past the end, so substr does not throw. */
  lemma ValueIsInRange(piece: string)
    requires |piece| < NPOS
    ensures Add(Find(piece, "=", 0), 1) <= |piece|
  {
    FindFinds(piece, "=", 0);
  }

  type Pair = (string, string)

  /** The pairs that the pieces stand for. */
  ghost function PairsOf(pieces: seq<string>): (pairs: seq<Pair>)
    requires forall p | p in pieces :: |p| < NPOS
    ensures |pairs| == |pieces|
  {
    seq(|pieces|, i requires 0 <= i < |pieces| => (Name(pieces[i]), Value(pieces[i])))
  }

  /** Assigns the pairs in order; a later pair replaces an earlier one of the same name. */
  function Assign(m: map<string, string>, pairs: seq<Pair>): map<string, string> {
    if pairs == [] then m else
    var last := pairs[|pairs| - 1];
    Assign(m, pairs[..|pairs| - 1])[last.0 := last.1]
  }

  /** Some pair has this name. */
  predicate Named(pairs: seq<Pair>, name: string) {
    exists i :: 0 <= i < |pairs| && pairs[i].0 == name
  }

  /** m is base with the pairs assigned: of the pairs of one name the last one counts, and what no pair
      names is as it was. */
  ghost predicate LastCounts(base: map<string, string>, pairs: seq<Pair>, m: map<string, string>) {
    && (forall k :: k in m <==> k in base || Named(pairs, k))
    && (forall i | 0 <= i < |pairs| && !Named(pairs[i + 1..], pairs[i].0) :: m[pairs[i].0] == pairs[i].1)
    && (forall k | k in base && !Named(pairs, k) :: m[k] == base[k])
  }

  /** A pair that comes after i, but is not the last, comes after i in front of the last, too. */
  lemma LaterInFront(pairs: seq<Pair>, i: nat, name: string)
    requires i < |pairs| - 1
    ensures Named(pairs[..|pairs| - 1][i + 1..], name) ==> Named(pairs[i + 1..], name)
  {
    var front, rest := pairs[..|pairs| - 1][i + 1..], pairs[i + 1..];
    if Named(front, name) {
      var j :| 0 <= j < |front| && front[j].0 == name;
      assert rest[j] == front[j];
    }
  }

  lemma {:induction false} AssignMeans(base: map<string, string>, pairs: seq<Pair>)
    ensures LastCounts(base, pairs, Assign(base, pairs))
  {
    if pairs != [] {
      var n := |pairs| - 1;
      var front, last, m := pairs[..n], pairs[n], Assign(base, pairs);
      AssignMeans(base, front);
      forall k ensures Named(pairs, k) <==> Named(front, k) || k == last.0 {
        if Named(front, k) {
          var i :| 0 <= i < n && front[i].0 == k;
          assert pairs[i].0 == k;
        }
        assert pairs[n].0 == last.0;
      }
      forall i | 0 <= i < |pairs| && !Named(pairs[i + 1..], pairs[i].0) ensures m[pairs[i].0] == pairs[i].1 {
        if i < n {
          assert pairs[i + 1..][n - i - 1] == last && pairs[i].0 != last.0;
          LaterInFront(pairs, i, pairs[i].0);
        }
      }
    }
  }

  ghost function Parsed(params: string): seq<Pair>
    requires |params| < NPOS
  {
    PiecesAreShort(params);
    PairsOf(Split(params, "&"))
  }

  lemma PiecesAreShort(params: string)
    requires |params| < NPOS
    ensures forall p | p in Split(params, "&") :: |p| < NPOS
  {
    PiecesAreClean(params, "&");
    forall p | p in Split(params, "&") ensures |p| < NPOS { assert PieceOf(p, params, "&"); }
  }

  method ParseParam(paramsStr: string, reqParams: map<string, string>) returns (reqParams': map<string, string>)
    requires |paramsStr| <= INT_MAX
    ensures reqParams' == Assign(reqParams, Parsed(paramsStr))
    ensures LastCounts(reqParams, Parsed(paramsStr), reqParams')
  {
    hide Split;
    var pairslist := MySplit(paramsStr, "&");
    PiecesAreShort(paramsStr);
    ghost var all := PairsOf(pairslist);
    reqParams' := reqParams;
    for i := 0 to |pairslist|
      invariant reqParams' == Assign(reqParams, all[..i])
    {
      var piece := pairslist[i];
      assert piece in pairslist;
      var found := StdFind(piece, "=", 0);
      var name := Substr(piece, 0, found);
      var pos := Add(found, 1);
      ValueIsInRange(piece);
      var value := Substr(piece, pos, NPOS);
      assert all[..i + 1][..i] == all[..i] && all[i] == (name, value);
      reqParams' := reqParams'[name := value];
    }
    assert all[..|pairslist|] == all;
    AssignMeans(reqParams, all);
  }

  // ---- names and values

  lemma CharAt(s: string, c: char, i: nat)
    ensures OccursAt(s, [c], i) <==> i < |s| && s[i] == c
  {
    if i < |s| { assert s[i..i + 1] == [s[i]]; }
  }

  /** A piece with a '=' is cut at the first one; a piece without one maps to itself. */
  lemma NameAndValue(piece: string)
    requires |piece| < NPOS
    ensures '=' in piece ==> piece == Name(piece) + "=" + Value(piece) && '=' !in Name(piece)
    ensures '=' !in piece ==> Name(piece) == piece && Value(piece) == piece
  {
    var r := Find(piece, "=", 0);
    FindFinds(piece, "=", 0);
    forall i: nat ensures OccursAt(piece, "=", i) <==> i < |piece| && piece[i] == '=' { CharAt(piece, '=', i); }
    if '=' in piece {
      var i :| 0 <= i < |piece| && piece[i] == '=';
      assert OccursAt(piece, "=", i);
      assert r != NPOS && piece[r] == '=';
      assert Name(piece) == piece[..r] && Value(piece) == piece[r + 1..];
    }
  }

  lemma PrintedPiece(name: string, value: string)
    requires |name + "=" + value| < NPOS && '=' !in name
    ensures Name(name + "=" + value) == name && Value(name + "=" + value) == value
  {
    var piece := name + "=" + value;
    assert piece[|name|] == '=';
    CharAt(piece, '=', |name|);
    forall i: nat | i < |name| ensures !OccursAt(piece, "=", i) {
      CharAt(piece, '=', i);
      assert piece[i] == name[i] && name[i] in name;
    }
    FindIs(piece, "=", 0, |name|);
    assert piece[..|name|] == name && piece[|name| + 1..] == value;
  }

  // ---- printing and parsing again

  function Printed(pairs: seq<Pair>): (pieces: seq<string>)
    ensures |pieces| == |pairs|
  {
    seq(|pairs|, i requires 0 <= i < |pairs| => pairs[i].0 + "=" + pairs[i].1)
  }

  /** name=value pairs joined with '&'. */
  function Print(pairs: seq<Pair>): string {
    Join(Printed(pairs), "&")
  }

  predicate Printable(p: Pair) {
    '&' !in p.0 && '=' !in p.0 && '&' !in p.1
  }

  lemma ParsedIsPrintable(params: string)
    requires |params| < NPOS
    ensures forall p | p in Parsed(params) :: Printable(p)
  {
    var pieces := Split(params, "&");
    PiecesAreShort(params);
    PiecesAreClean(params, "&");
    forall i | 0 <= i < |pieces| ensures Printable(Parsed(params)[i]) {
      var piece := pieces[i];
      assert piece in pieces && PieceOf(piece, params, "&");
      forall k | 0 <= k < |piece| ensures piece[k] != '&' { CharAt(piece, '&', k); }
      NameAndValue(piece);
      assert forall c | c in Name(piece) :: c in piece;
      assert forall c | c in Value(piece) :: c in piece;
    }
  }

  /** Parsing gives back the printed pairs, in order, exactly when no name has '&' or '=' in it and no
      value has '&' in it. */
  lemma ParsingUndoesPrintingExactly(pairs: seq<Pair>)
    requires |Print(pairs)| + 1 < NPOS
    ensures Parsed(Print(pairs)) == pairs <==> forall p | p in pairs :: Printable(p)
  {
    if forall p | p in pairs :: Printable(p) {
      PrintableComesBack(pairs);
    }
    ParsedIsPrintable(Print(pairs));
  }

  lemma PrintableComesBack(pairs: seq<Pair>)
    requires |Print(pairs)| + 1 < NPOS
    requires forall p | p in pairs :: Printable(p)
    ensures Parsed(Print(pairs)) == pairs
  {
    var pieces := Printed(pairs);
    PartsAreShort(pieces, "&");
    forall p | p in pieces ensures p != "" && '&' !in p {
      var i :| 0 <= i < |pairs| && p == pairs[i].0 + "=" + pairs[i].1;
      assert pairs[i] in pairs;
    }
    SplitUndoesJoinForOneChar(pieces, '&');
    forall i | 0 <= i < |pairs| ensures (Name(pieces[i]), Value(pieces[i])) == pairs[i] {
      assert pairs[i] in pairs && pieces[i] in pieces;
      PrintedPiece(pairs[i].0, pairs[i].1);
    }
  }

  /** The pairs of a map, in the order of a list of its keys. */
  function InOrder(m: map<string, string>, keys: seq<string>): (pairs: seq<Pair>)
    requires forall k | k in keys :: k in m
    ensures |pairs| == |keys|
  {
    seq(|keys|, i requires 0 <= i < |keys| => (keys[i], m[keys[i]]))
  }

  lemma OneMoreKey(m: map<string, string>, front: seq<string>, last: string)
    requires last in m && forall k | k in front :: k in m
    ensures (map k | k in front + [last] :: m[k]) == (map k | k in front :: m[k])[last := m[last]]
  {
  }

  lemma {:induction false} AssignInOrder(base: map<string, string>, m: map<string, string>, keys: seq<string>)
    requires forall k | k in keys :: k in m
    ensures Assign(base, InOrder(m, keys)) == base + (map k | k in keys :: m[k])
  {
    if keys != [] {
      var front, last := keys[..|keys| - 1], keys[|keys| - 1];
      AssignInOrder(base, m, front);
      assert InOrder(m, keys)[..|keys| - 1] == InOrder(m, front);
      OneMoreKey(m, front, last);
      assert keys == front + [last];
    }
  }

  /** Printing a map in any order of its keys and parsing it updates the request's parameters by
      exactly that map, when its names and values can be told apart. */
  lemma ParsingUndoesPrintingMaps(base: map<string, string>, m: map<string, string>, keys: seq<string>)
    requires forall k :: k in keys <==> k in m
    requires forall k | k in m :: Printable((k, m[k]))
    requires |Print(InOrder(m, keys))| + 1 < NPOS
    ensures Assign(base, Parsed(Print(InOrder(m, keys)))) == base + m
  {
    PrintableComesBack(InOrder(m, keys));
    AssignInOrder(base, m, keys);
    assert (map k | k in keys :: m[k]) == m;
  }
}
