/** The canonical key of an alert group: the group-by labels as sorted key=value lines. */
module GroupKeys {
  type Labels = map<string, string>

  function Pair(k: string, v: string): string {
    k + "=" + v
  }

  // ----- Byte order and sorting -----

  predicate Leq(a: string, b: string) {
    if a == [] then true
    else if b == [] then false
    else a[0] < b[0] || (a[0] == b[0] && Leq(a[1..], b[1..]))
  }

  lemma {:induction false} LeqTotal(a: string, b: string)
    ensures Leq(a, b) || Leq(b, a)
    ensures Leq(a, b) && Leq(b, a) ==> a == b
  {
    if a != [] && b != [] {
      LeqTotal(a[1..], b[1..]);
      assert a == [a[0]] + a[1..] && b == [b[0]] + b[1..];
    }
  }

  /** The first place where two texts differ. */
  ghost predicate DifferAt(a: string, b: string, i: int) {
    0 <= i < |a| && i < |b| && a[i] != b[i] && forall j :: 0 <= j < i ==> a[j] == b[j]
  }

  /** That is lexicographic order: a prefix first, and otherwise the smaller character where the two differ. */
  lemma {:induction false} LeqIsLexicographic(a: string, b: string)
    ensures Leq(a, b) <==> a <= b || exists i :: DifferAt(a, b, i) && a[i] < b[i]
  {
    if a != [] && b != [] {
      if a[0] == b[0] {
        LeqIsLexicographic(a[1..], b[1..]);
        hide DifferAt;
        assert a == [a[0]] + a[1..] && b == [b[0]] + b[1..];
        forall i
          ensures DifferAt(a, b, i) <==> DifferAt(a[1..], b[1..], i - 1)
        {
          DifferLater(a, b, i);
        }
        hide Leq;
        assert (exists i :: DifferAt(a, b, i) && a[i] < b[i])
           <==> exists i :: DifferAt(a[1..], b[1..], i) && a[1..][i] < b[1..][i];
      } else {
        assert DifferAt(a, b, 0);
      }
    }
  }

  lemma {:induction false} DifferLater(a: string, b: string, i: int)
    requires a != [] && b != [] && a[0] == b[0]
    ensures DifferAt(a, b, i) <==> DifferAt(a[1..], b[1..], i - 1)
  {
    if DifferAt(a[1..], b[1..], i - 1) {
      forall j | 0 < j < i
        ensures a[j] == b[j]
      {
        assert a[1..][j - 1] == b[1..][j - 1];
      }
    }
  }

  lemma {:induction false} LeqTransitive(a: string, b: string, c: string)
    requires Leq(a, b) && Leq(b, c)
    ensures Leq(a, c)
  {
    if a != [] && a[0] == b[0] && b[0] == c[0] {
      LeqTransitive(a[1..], b[1..], c[1..]);
    }
  }

  ghost predicate Sorted(xs: seq<string>) {
    forall i, j :: 0 <= i < j < |xs| ==> Leq(xs[i], xs[j])
  }

  function Insert(x: string, xs: seq<string>): seq<string> {
    if xs == [] || Leq(x, xs[0]) then [x] + xs else [xs[0]] + Insert(x, xs[1..])
  }

  function SortStrings(xs: seq<string>): seq<string> {
    if xs == [] then [] else Insert(xs[0], SortStrings(xs[1..]))
  }

  lemma {:induction false} SortedCons(x: string, xs: seq<string>)
    requires Sorted(xs) && forall y :: y in xs ==> Leq(x, y)
    ensures Sorted([x] + xs)
  {
  }

  lemma {:induction false} InsertBag(x: string, xs: seq<string>)
    ensures multiset(Insert(x, xs)) == multiset(xs) + multiset{x}
  {
    hide Leq;
    if xs != [] && !Leq(x, xs[0]) {
      InsertBag(x, xs[1..]);
      assert xs == [xs[0]] + xs[1..];
    }
  }

  lemma {:induction false} InsertSorted(x: string, xs: seq<string>)
    requires Sorted(xs)
    ensures Sorted(Insert(x, xs)) && multiset(Insert(x, xs)) == multiset(xs) + multiset{x}
  {
    hide Leq;
    InsertBag(x, xs);
    if xs == [] {
    } else if Leq(x, xs[0]) {
      forall y | y in xs
        ensures Leq(x, y)
      {
        LeastFirst(xs, y);
        LeqTransitive(x, xs[0], y);
      }
      SortedCons(x, xs);
    } else {
      InsertSorted(x, xs[1..]);
      LeqTotal(x, xs[0]);
      forall y | y in Insert(x, xs[1..])
        ensures Leq(xs[0], y)
      {
        assert y in multiset(Insert(x, xs[1..]));
        assert y == x || y in xs[1..];
      }
      SortedCons(xs[0], Insert(x, xs[1..]));
    }
  }

  lemma {:induction false} SortStringsSorts(xs: seq<string>)
    ensures Sorted(SortStrings(xs)) && multiset(SortStrings(xs)) == multiset(xs)
  {
    if xs != [] {
      SortStringsSorts(xs[1..]);
      InsertSorted(xs[0], SortStrings(xs[1..]));
      assert xs == [xs[0]] + xs[1..];
    }
  }

  /** There is one sorted list of given elements. */
  lemma {:induction false} SortedUnique(xs: seq<string>, ys: seq<string>)
    requires Sorted(xs) && Sorted(ys) && multiset(xs) == multiset(ys)
    ensures xs == ys
  {
    assert |multiset(xs)| == |xs| && |multiset(ys)| == |ys|;
    if xs != [] {
      SameHead(xs, ys);
      TailBag(xs);
      TailBag(ys);
      SortedTail(xs);
      SortedTail(ys);
      hide Sorted;
      SortedUnique(xs[1..], ys[1..]);
      assert xs == [xs[0]] + xs[1..] && ys == [ys[0]] + ys[1..];
    }
  }

  lemma {:induction false} SameHead(xs: seq<string>, ys: seq<string>)
    requires xs != [] && ys != [] && Sorted(xs) && Sorted(ys) && multiset(xs) == multiset(ys)
    ensures xs[0] == ys[0]
  {
    hide Leq;
    hide Sorted;
    assert xs[0] in multiset(xs) && ys[0] in multiset(ys);
    LeastFirst(xs, ys[0]);
    LeastFirst(ys, xs[0]);
    LeqTotal(xs[0], ys[0]);
  }

  lemma {:induction false} SortedTail(xs: seq<string>)
    requires xs != [] && Sorted(xs)
    ensures Sorted(xs[1..])
  {
    hide Leq;
  }

  lemma {:induction false} TailBag(xs: seq<string>)
    requires xs != []
    ensures multiset(xs[1..]) == multiset(xs) - multiset{xs[0]}
    ensures forall x :: x in multiset(xs) <==> x in xs
  {
    assert xs == [xs[0]] + xs[1..];
  }

  lemma {:induction false} LeastFirst(xs: seq<string>, x: string)
    requires Sorted(xs) && x in xs
    ensures Leq(xs[0], x)
  {
    var i :| 0 <= i < |xs| && xs[i] == x;
    if i == 0 {
      LeqTotal(x, x);
    }
  }

  // ----- The key -----

  /** Every label's line, once each. */
  ghost function PairBag(l: Labels): multiset<string> {
    if l == map[] then multiset{}
    else
      var k :| k in l;
      PairBag(l - {k}) + multiset{Pair(k, l[k])}
  }

  lemma {:induction false} SmallerWithout(l: Labels, k: string)
    requires k in l
    ensures |l - {k}| == |l| - 1
  {
    assert (l - {k}).Keys == l.Keys - {k};
    assert |(l - {k}).Keys| == |l - {k}|;
  }

  /** Whichever label is taken first. */
  lemma {:induction false} PairBagTakes(l: Labels, k: string)
    requires k in l
    ensures PairBag(l) == PairBag(l - {k}) + multiset{Pair(k, l[k])}
    decreases |l|
  {
    hide PairBag;
    var j := PairBagFirst(l);
    if j != k {
      SmallerWithout(l, j);
      SmallerWithout(l, k);
      PairBagTakes(l - {j}, k);
      PairBagTakes(l - {k}, j);
      assert l - {j} - {k} == l - {k} - {j};
    }
  }

  lemma {:induction false} PairBagFirst(l: Labels) returns (j: string)
    requires l != map[]
    ensures j in l && PairBag(l) == PairBag(l - {j}) + multiset{Pair(j, l[j])}
  {
    hide Pair;
    j :| j in l && PairBag(l) == PairBag(l - {j}) + multiset{Pair(j, l[j])};
  }

  lemma {:induction false} PairBagHas(l: Labels, p: string)
    ensures p in PairBag(l) <==> exists k :: k in l && p == Pair(k, l[k])
    decreases |l|
  {
    if l != map[] {
      var j := PairBagFirst(l);
      SmallerWithout(l, j);
      PairBagHas(l - {j}, p);
      if k :| k in l && p == Pair(k, l[k]) {
        assert k != j ==> k in l - {j} && (l - {j})[k] == l[k];
      }
      if k :| k in l - {j} && p == Pair(k, (l - {j})[k]) {
        assert k in l;
      }
    }
  }

  function JoinLines(xs: seq<string>): string {
    if xs == [] then ""
    else if |xs| == 1 then xs[0]
    else xs[0] + "\n" + JoinLines(xs[1..])
  }

  ghost predicate SortedPairs(l: Labels, pairs: seq<string>) {
    Sorted(pairs) && multiset(pairs) == PairBag(l)
  }

  /** The text that is hashed for these labels. */
  ghost predicate IsKey(l: Labels, key: string) {
    exists pairs :: SortedPairs(l, pairs) && key == JoinLines(pairs)
  }

  /** The loop takes the labels in whatever order the map gives them out. */
  method ComputeGroupKey(l: Labels) returns (key: string)
    ensures IsKey(l, key)
  {
    var pairs: seq<string> := [];
    var rest := l;
    while rest != map[]
      invariant multiset(pairs) + PairBag(rest) == PairBag(l)
      decreases |rest|
    {
      var k :| k in rest;
      PairBagTakes(rest, k);
      pairs := pairs + [Pair(k, rest[k])];
      SmallerWithout(rest, k);
      rest := rest - {k};
    }
    SortStringsSorts(pairs);
    key := JoinLines(SortStrings(pairs));
  }

  /** The key does not depend on that order. */
  lemma {:induction false} KeyUnique(l: Labels, a: string, b: string)
    requires IsKey(l, a) && IsKey(l, b)
    ensures a == b
  {
    var xs :| SortedPairs(l, xs) && a == JoinLines(xs);
    var ys :| SortedPairs(l, ys) && b == JoinLines(ys);
    SortedUnique(xs, ys);
  }

  lemma {:induction false} BagOfTwo(l: Labels, k: string, k': string)
    requires k != k' && l.Keys == {k, k'}
    ensures PairBag(l) == multiset{Pair(k, l[k]), Pair(k', l[k'])}
  {
    hide Pair;
    PairBagTakes(l, k);
    PairBagTakes(l - {k}, k');
    assert (l - {k} - {k'}).Keys == {};
    assert l - {k} - {k'} == map[];
  }

  lemma {:induction false} SortedLines(l: Labels, p: string, q: string)
    requires PairBag(l) == multiset{p, q} && Leq(p, q)
    ensures IsKey(l, JoinLines([p, q]))
  {
    hide Leq;
    hide JoinLines;
    hide PairBag;
    assert SortedPairs(l, [p, q]);
  }

  /** Of two labels the one whose line sorts first comes first, however the labels were given. */
  lemma {:induction false} KeyOfTwoLabels(k: string, v: string, k': string, v': string)
    requires k != k' && Leq(k + "=" + v, k' + "=" + v')
    ensures IsKey(map[k' := v', k := v], k + "=" + v + "\n" + k' + "=" + v')
  {
    hide Leq;
    hide IsKey;
    hide JoinLines;
    hide PairBag;
    var l := map[k' := v', k := v];
    BagOfTwo(l, k, k');
    SortedLines(l, Pair(k, v), Pair(k', v'));
    TwoLines([Pair(k, v), Pair(k', v')]);
    assert k + "=" + v + "\n" + (k' + "=" + v') == k + "=" + v + "\n" + k' + "=" + v';
  }

  lemma {:induction false} TwoLines(pairs: seq<string>)
    requires |pairs| == 2
    ensures JoinLines(pairs) == pairs[0] + "\n" + pairs[1]
  {
  }

  lemma {:induction false} KeyExists(l: Labels)
    ensures exists key :: IsKey(l, key)
  {
    var pairs := SortedPairsOf(l);
    assert IsKey(l, JoinLines(pairs));
  }

  lemma {:induction false} SortedPairsOf(l: Labels) returns (pairs: seq<string>)
    ensures SortedPairs(l, pairs)
    decreases |l|
  {
    if l == map[] {
      pairs := [];
    } else {
      var k :| k in l;
      SmallerWithout(l, k);
      var rest := SortedPairsOf(l - {k});
      PairBagTakes(l, k);
      InsertSorted(Pair(k, l[k]), rest);
      pairs := Insert(Pair(k, l[k]), rest);
    }
  }

  // ----- Reading a key back -----

  predicate PlainKey(k: string) { '=' !in k }

  predicate PlainValue(v: string) { '\n' !in v }

  /** No key holds an equals sign and no value a line break. */
  ghost predicate PlainLabels(l: Labels) {
    forall k :: k in l ==> PlainKey(k) && PlainValue(l[k])
  }

  function IndexOf(s: string, c: char): nat {
    if s == [] || s[0] == c then 0 else 1 + IndexOf(s[1..], c)
  }

  lemma {:induction false} IndexOfFirst(a: string, c: char, b: string)
    requires c !in a
    ensures IndexOf(a, c) == |a|
    ensures IndexOf(a + [c] + b, c) == |a|
  {
    var s := a + [c] + b;
    if a != [] {
      assert s[1..] == a[1..] + [c] + b && s[0] == a[0];
      IndexOfFirst(a[1..], c, b);
    }
  }

  lemma {:induction false} IndexOfBound(s: string, c: char)
    ensures IndexOf(s, c) <= |s|
  {
    if s != [] && s[0] != c {
      IndexOfBound(s[1..], c);
    }
  }

  /** Up to the first equals sign is a key; from there to the end of the line, its value. */
  function Decode(s: string): seq<(string, string)>
    decreases |s|
  {
    IndexOfBound(s, '=');
    var i := IndexOf(s, '=');
    if i == |s| then []
    else
      var rest := s[i + 1..];
      IndexOfBound(rest, '\n');
      var j := IndexOf(rest, '\n');
      if j == |rest| then [(s[..i], rest)] else [(s[..i], rest[..j])] + Decode(rest[j + 1..])
  }

  function Lines(kvs: seq<(string, string)>): seq<string> {
    seq(|kvs|, i requires 0 <= i < |kvs| => Pair(kvs[i].0, kvs[i].1))
  }

  lemma {:induction false} DecodeLast(k: string, v: string)
    requires PlainKey(k) && PlainValue(v)
    ensures Decode(Pair(k, v)) == [(k, v)]
  {
    var s := k + ['='] + v;
    IndexOfFirst(k, '=', v);
    assert s[|k| + 1..] == v && s[..|k|] == k;
    IndexOfFirst(v, '\n', []);
    hide IndexOf;
    assert Pair(k, v) == s;
  }

  lemma {:induction false} DecodeLine(k: string, v: string, more: string)
    requires PlainKey(k) && PlainValue(v)
    ensures Decode(Pair(k, v) + "\n" + more) == [(k, v)] + Decode(more)
  {
    var rest := v + ['\n'] + more;
    var s := k + ['='] + rest;
    IndexOfFirst(k, '=', rest);
    IndexOfFirst(v, '\n', more);
    hide IndexOf;
    assert s[|k| + 1..] == rest && s[..|k|] == k;
    assert rest[|v| + 1..] == more && rest[..|v|] == v;
    assert Pair(k, v) + "\n" + more == s;
  }

  /** Round trip: joined lines read back as the labels they were made from. */
  lemma {:induction false} DecodeJoined(kvs: seq<(string, string)>)
    requires forall i :: 0 <= i < |kvs| ==> PlainKey(kvs[i].0) && PlainValue(kvs[i].1)
    ensures Decode(JoinLines(Lines(kvs))) == kvs
  {
    hide Decode;
    hide Pair;
    if kvs == [] {
      DecodeNothing();
    } else {
      assert Lines(kvs)[1..] == Lines(kvs[1..]);
      assert kvs == [(kvs[0].0, kvs[0].1)] + kvs[1..];
      if |kvs| == 1 {
        DecodeLast(kvs[0].0, kvs[0].1);
      } else {
        DecodeJoined(kvs[1..]);
        DecodeLine(kvs[0].0, kvs[0].1, JoinLines(Lines(kvs[1..])));
      }
    }
  }

  lemma {:induction false} DecodeNothing()
    ensures Decode("") == []
  {
    assert IndexOf("", '=') == 0;
  }

  /** The sorted lines of plain labels, taken apart. */
  lemma {:induction false} PairsOf(l: Labels, pairs: seq<string>) returns (kvs: seq<(string, string)>)
    requires SortedPairs(l, pairs)
    ensures Lines(kvs) == pairs
    ensures forall i :: 0 <= i < |kvs| ==> kvs[i].0 in l && kvs[i].1 == l[kvs[i].0]
  {
    kvs := [];
    while |kvs| < |pairs|
      invariant |kvs| <= |pairs| && Lines(kvs) == pairs[..|kvs|]
      invariant forall i :: 0 <= i < |kvs| ==> kvs[i].0 in l && kvs[i].1 == l[kvs[i].0]
    {
      var p := pairs[|kvs|];
      assert p in multiset(pairs);
      PairBagHas(l, p);
      var k :| k in l && p == Pair(k, l[k]);
      var kvs' := kvs + [(k, l[k])];
      assert Lines(kvs') == Lines(kvs) + [p];
      kvs := kvs';
    }
    assert pairs[..|kvs|] == pairs;
  }

  lemma {:induction false} PairInjective(k: string, v: string, k': string, v': string)
    requires PlainKey(k) && PlainKey(k') && Pair(k, v) == Pair(k', v')
    ensures k == k' && v == v'
  {
    assert Pair(k, v) == k + ['='] + v && Pair(k', v') == k' + ['='] + v';
    IndexOfFirst(k, '=', v);
    IndexOfFirst(k', '=', v');
    assert Pair(k, v)[..|k|] == k && Pair(k', v')[..|k'|] == k';
    assert Pair(k, v)[|k| + 1..] == v && Pair(k', v')[|k'| + 1..] == v';
  }

  lemma {:induction false} LabelAmongPairs(l: Labels, kvs: seq<(string, string)>, k: string)
    requires PlainLabels(l) && SortedPairs(l, Lines(kvs)) && k in l
    requires forall i :: 0 <= i < |kvs| ==> kvs[i].0 in l && kvs[i].1 == l[kvs[i].0]
    ensures (k, l[k]) in kvs
  {
    var p := Pair(k, l[k]);
    PairBagHas(l, p);
    assert p in multiset(Lines(kvs));
    var i :| 0 <= i < |kvs| && Lines(kvs)[i] == p;
    PairInjective(k, l[k], kvs[i].0, kvs[i].1);
  }

  /** Labels whose lines are the same list of pairs. */
  lemma {:induction false} LabelsCarryOver(l: Labels, l': Labels, kvs: seq<(string, string)>)
    requires PlainLabels(l) && SortedPairs(l, Lines(kvs))
    requires forall i :: 0 <= i < |kvs| ==> kvs[i].0 in l && kvs[i].1 == l[kvs[i].0]
    requires forall i :: 0 <= i < |kvs| ==> kvs[i].0 in l' && kvs[i].1 == l'[kvs[i].0]
    ensures forall k :: k in l ==> k in l' && l'[k] == l[k]
  {
    hide SortedPairs;
    hide PlainLabels;
    forall k | k in l
      ensures k in l' && l'[k] == l[k]
    {
      LabelAmongPairs(l, kvs, k);
      var i :| 0 <= i < |kvs| && kvs[i] == (k, l[k]);
    }
  }

  lemma {:induction false} ReadBack(l: Labels, key: string)
    requires PlainLabels(l) && IsKey(l, key)
    ensures SortedPairs(l, Lines(Decode(key)))
    ensures var kvs := Decode(key); forall i :: 0 <= i < |kvs| ==> kvs[i].0 in l && kvs[i].1 == l[kvs[i].0]
  {
    var pairs :| SortedPairs(l, pairs) && key == JoinLines(pairs);
    hide SortedPairs;
    hide Decode;
    var kvs := PairsOf(l, pairs);
    DecodeJoined(kvs);
  }

  lemma {:induction false} PlainKeysInjective(l: Labels, l': Labels, key: string)
    requires PlainLabels(l) && PlainLabels(l') && IsKey(l, key) && IsKey(l', key)
    ensures l == l'
  {
    hide SortedPairs;
    hide Decode;
    hide IsKey;
    hide PlainLabels;
    ReadBack(l, key);
    ReadBack(l', key);
    LabelsCarryOver(l, l', Decode(key));
    LabelsCarryOver(l', l, Decode(key));
  }
}
