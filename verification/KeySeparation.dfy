/** Exactly which label maps the group keys tell apart. */
module KeySeparation {
  import opened GroupKeys

  ghost predicate PlainValues(l: Labels) {
    forall k :: k in l ==> PlainValue(l[k])
  }

  ghost predicate SingleLines(ks: set<string>) {
    forall k :: k in ks ==> '\n' !in k
  }

  /** No key, with an equals sign after it, begins another. */
  ghost predicate NoneExtends(ks: set<string>) {
    forall k, k' :: k in ks && k' in ks && k != k' ==> !(k + "=" <= k')
  }

  ghost predicate Separable(ks: set<string>) {
    (forall k :: k in ks ==> PlainKey(k)) || (SingleLines(ks) && NoneExtends(ks))
  }

  ghost predicate ProperLines(xs: seq<string>) {
    forall i :: 0 <= i < |xs| ==> xs[i] != [] && '\n' !in xs[i]
  }

  /** Lines can be taken apart again if none is empty or holds a line break. */
  lemma {:induction false} JoinInjective(xs: seq<string>, ys: seq<string>)
    requires ProperLines(xs) && ProperLines(ys) && JoinLines(xs) == JoinLines(ys)
    ensures xs == ys
  {
    if xs != [] {
      FirstLine(xs);
    }
    if ys != [] {
      FirstLine(ys);
    }
    if xs != [] && ys != [] {
      assert JoinLines(xs)[..|xs[0]|] == xs[0] && JoinLines(ys)[..|ys[0]|] == ys[0];
      JoinInjective(xs[1..], ys[1..]);
      assert xs == [xs[0]] + xs[1..] && ys == [ys[0]] + ys[1..];
    }
  }

  lemma {:induction false} FirstLine(xs: seq<string>)
    requires xs != [] && ProperLines(xs)
    ensures |JoinLines(xs)| >= |xs[0]| == IndexOf(JoinLines(xs), '\n') && JoinLines(xs)[..|xs[0]|] == xs[0] != []
    ensures JoinLines(xs[1..]) == if |JoinLines(xs)| == |xs[0]| then "" else JoinLines(xs)[|xs[0]| + 1..]
  {
    IndexOfFirst(xs[0], '\n', JoinLines(xs[1..]));
    hide IndexOf;
    if |xs| > 1 {
      assert JoinLines(xs) == xs[0] + ['\n'] + JoinLines(xs[1..]);
    }
  }

  lemma {:induction false} LinesAreProper(l: Labels, pairs: seq<string>)
    requires SortedPairs(l, pairs) && PlainValues(l) && SingleLines(l.Keys)
    ensures ProperLines(pairs)
  {
    forall i | 0 <= i < |pairs|
      ensures pairs[i] != [] && '\n' !in pairs[i]
    {
      assert pairs[i] in multiset(pairs);
      PairBagHas(l, pairs[i]);
      var k :| k in l && pairs[i] == Pair(k, l[k]);
    }
  }

  /** Two lines that are the same text have the same key, or one key extends the other. */
  lemma {:induction false} SameLine(k: string, v: string, k': string, v': string)
    requires Pair(k, v) == Pair(k', v')
    ensures (k == k' && v == v') || (k != k' && (k + "=" <= k' || k' + "=" <= k))
  {
    var p := Pair(k, v);
    assert p == k + ['='] + v && p == k' + ['='] + v';
    assert p[..|k|] == k && p[..|k'|] == k' && p[|k| + 1..] == v && p[|k'| + 1..] == v';
    assert |k| < |k'| ==> k + "=" == k'[..|k| + 1];
    assert |k'| < |k| ==> k' + "=" == k[..|k'| + 1];
  }

  lemma {:induction false} LabelFound(l: Labels, l': Labels, k: string)
    requires PairBag(l) == PairBag(l') && NoneExtends(l.Keys + l'.Keys) && k in l
    ensures k in l' && l'[k] == l[k]
  {
    PairBagHas(l, Pair(k, l[k]));
    PairBagHas(l', Pair(k, l[k]));
    var k' :| k' in l' && Pair(k, l[k]) == Pair(k', l'[k']);
    hide Pair;
    SameLine(k, l[k], k', l'[k']);
  }

  lemma {:induction false} SeparateKeysInjective(l: Labels, l': Labels, key: string)
    requires PlainValues(l) && PlainValues(l') && SingleLines(l.Keys + l'.Keys) && NoneExtends(l.Keys + l'.Keys)
    requires IsKey(l, key) && IsKey(l', key)
    ensures l == l'
  {
    var xs :| SortedPairs(l, xs) && key == JoinLines(xs);
    var ys :| SortedPairs(l', ys) && key == JoinLines(ys);
    LinesAreProper(l, xs);
    LinesAreProper(l', ys);
    JoinInjective(xs, ys);
    hide NoneExtends;
    forall k | k in l
      ensures k in l' && l'[k] == l[k]
    {
      LabelFound(l, l', k);
    }
    forall k | k in l'
      ensures k in l
    {
      assert l.Keys + l'.Keys == l'.Keys + l.Keys;
      LabelFound(l', l, k);
    }
  }

  /** Two label maps with plain values, whose keys can be told apart, share a key only if they are the same. */
  lemma {:induction false} KeyInjective(l: Labels, l': Labels, key: string)
    requires PlainValues(l) && PlainValues(l') && Separable(l.Keys + l'.Keys)
    requires IsKey(l, key) && IsKey(l', key)
    ensures l == l'
  {
    hide IsKey;
    if forall k :: k in l.Keys + l'.Keys ==> PlainKey(k) {
      PlainKeysInjective(l, l', key);
    } else {
      hide NoneExtends;
      SeparateKeysInjective(l, l', key);
    }
  }

  function AllEmpty(ks: set<string>): Labels {
    map k | k in ks :: ""
  }

  lemma {:induction false} TwoLabelsTaken(l: Labels, k: string, k': string)
    requires k in l && k' in l && k != k'
    ensures PairBag(l) == PairBag(l - {k, k'}) + multiset{Pair(k, l[k])} + multiset{Pair(k', l[k'])}
  {
    hide Pair;
    hide PairBag;
    PairBagTakes(l, k);
    PairBagTakes(l - {k}, k');
    assert l - {k} - {k'} == l - {k, k'};
  }

  lemma {:induction false} SameBagSameKey(l: Labels, l': Labels) returns (key: string)
    requires PairBag(l) == PairBag(l')
    ensures IsKey(l, key) && IsKey(l', key)
  {
    KeyExists(l);
    key :| IsKey(l, key);
  }

  /** Two labels that exchange their lines. */
  lemma {:induction false} ExchangedLines(l: Labels, l': Labels, k: string, k': string)
    requires k in l && k' in l && k in l' && k' in l' && k != k' && l - {k, k'} == l' - {k, k'}
    requires Pair(k, l[k]) == Pair(k', l'[k']) && Pair(k, l'[k]) == Pair(k', l[k'])
    ensures PairBag(l) == PairBag(l')
  {
    hide Pair;
    hide PairBag;
    TwoLabelsTaken(l, k, k');
    TwoLabelsTaken(l', k, k');
  }

  lemma {:induction false} SameText(k: string, k': string, v: string)
    requires k + "=" <= k'
    ensures Pair(k, k'[|k| + 1..] + "=" + v) == Pair(k', v)
  {
    assert k' == k + "=" + k'[|k| + 1..];
  }

  /** All labels empty but the two. */
  function TwoSet(ks: set<string>, k: string, v: string, k': string, v': string): Labels {
    AllEmpty(ks)[k := v][k' := v']
  }

  /** One key begins another: of the lines k=w=1 and k=w=2, either may be the one with key k. */
  lemma {:induction false} ExtensionCollides(ks: set<string>, k: string, k': string)
    returns (l: Labels, l': Labels, key: string)
    requires k in ks && k' in ks && k != k' && k + "=" <= k'
    ensures var w := k'[|k| + 1..] + "="; l == TwoSet(ks, k, w + "1", k', "2") && l' == TwoSet(ks, k, w + "2", k', "1")
    ensures l.Keys == ks && l'.Keys == ks && l != l' && IsKey(l, key) && IsKey(l', key)
    ensures PlainValue(k'[|k| + 1..]) ==> PlainValues(l) && PlainValues(l')
  {
    hide Pair;
    hide PairBag;
    var w := k'[|k| + 1..] + "=";
    l, l' := TwoSet(ks, k, w + "1", k', "2"), TwoSet(ks, k, w + "2", k', "1");
    SameText(k, k', "1");
    SameText(k, k', "2");
    assert l - {k, k'} == l' - {k, k'};
    ExchangedLines(l, l', k, k');
    key := SameBagSameKey(l, l');
    assert l[k'] != l'[k'];
  }

  // ----- The same keys on both sides -----

  lemma {:induction false} LeqDecided(a: string, b: string, x: string, y: string)
    requires Leq(a, b) && !(a <= b)
    ensures Leq(a + x, b + y)
  {
    if a != [] && b != [] {
      assert (a + x)[1..] == a[1..] + x && (b + y)[1..] == b[1..] + y;
      if a[0] == b[0] {
        assert a[1..] <= b[1..] ==> a <= b;
        LeqDecided(a[1..], b[1..], x, y);
      }
    }
  }

  lemma {:induction false} BeginsLine(k: string, k': string)
    requires k + "=" <= k' + "="
    ensures k == k' || k + "=" <= k'
  {
    var a, b := k + "=", k' + "=";
    if |k| < |k'| {
      assert a == b[..|a|] == k'[..|a|];
    } else {
      assert k == a[..|k|] && k' == b[..|k|];
    }
  }

  /** Lines are ordered by their keys, whatever the values, when none extends another. */
  lemma {:induction false} OrderedByKey(k: string, k': string, v: string, v': string)
    requires k != k' && !(k + "=" <= k') && Leq(Pair(k, ""), Pair(k', ""))
    ensures Leq(Pair(k, v), Pair(k', v'))
  {
    var a, b := k + "=", k' + "=";
    assert Pair(k, "") == a && Pair(k', "") == b;
    if a <= b {
      BeginsLine(k, k');
    }
    LeqDecided(a, b, v, v');
    assert Pair(k, v) == a + v && Pair(k', v') == b + v';
  }

  lemma {:induction false} FirstOfSorted(l: Labels, pairs: seq<string>) returns (k: string)
    requires l != map[] && SortedPairs(l, pairs)
    ensures pairs != [] && k in l && pairs[0] == Pair(k, l[k]) && SortedPairs(l - {k}, pairs[1..])
  {
    var j := PairBagFirst(l);
    hide PairBag;
    hide Leq;
    hide Pair;
    assert pairs != [] by {
      assert Pair(j, l[j]) in multiset(pairs);
    }
    assert pairs[0] in multiset(pairs);
    PairBagHas(l, pairs[0]);
    k :| k in l && pairs[0] == Pair(k, l[k]);
    PairBagTakes(l, k);
    TailBag(pairs);
    SortedTail(pairs);
  }

  /** The order of two keys' lines is the same for all values. */
  lemma {:induction false} SameOrder(k: string, k': string, v: string, v': string, w: string, w': string)
    requires k != k' && !(k + "=" <= k') && !(k' + "=" <= k)
    requires Leq(Pair(k, v), Pair(k', v'))
    ensures Leq(Pair(k, w), Pair(k', w')) && Pair(k, w) != Pair(k', w')
  {
    LeqTotal(Pair(k, ""), Pair(k', ""));
    hide Leq;
    if Leq(Pair(k, ""), Pair(k', "")) {
      OrderedByKey(k, k', w, w');
    } else {
      OrderedByKey(k', k, v', v);
      LeqTotal(Pair(k, v), Pair(k', v'));
      hide Pair;
      SameLine(k, v, k', v');
    }
    hide Pair;
    if Pair(k, w) == Pair(k', w') {
      SameLine(k, w, k', w');
    }
  }

  /** So maps over the same keys list them in the same order. */
  lemma {:induction false} SameFirstKey(l: Labels, l': Labels, xs: seq<string>, ys: seq<string>, k: string, k': string)
    requires l.Keys == l'.Keys && NoneExtends(l.Keys) && SortedPairs(l, xs) && SortedPairs(l', ys)
    requires k in l && k' in l && xs != [] && ys != [] && xs[0] == Pair(k, l[k]) && ys[0] == Pair(k', l'[k'])
    ensures k == k'
  {
    hide Leq;
    hide Pair;
    PairBagHas(l, Pair(k', l[k']));
    PairBagHas(l', Pair(k, l'[k]));
    hide PairBag;
    assert Pair(k', l[k']) in multiset(xs) && Pair(k, l'[k]) in multiset(ys);
    LeastFirst(xs, Pair(k', l[k']));
    LeastFirst(ys, Pair(k, l'[k]));
    if k != k' {
      SameOrder(k, k', l[k], l[k'], l'[k], l'[k']);
      LeqTotal(Pair(k, l'[k]), Pair(k', l'[k']));
    }
  }

  /** A first line of a known key, taken off the text. */
  lemma {:induction false} FirstValue(k: string, v: string, xs: seq<string>)
    requires xs != [] && xs[0] == Pair(k, v) && PlainValue(v)
    ensures |JoinLines(xs)| > |k|
    ensures var rest := JoinLines(xs)[|k| + 1..];
            && IndexOf(rest, '\n') == |v| <= |rest| && rest[..|v|] == v
            && JoinLines(xs[1..]) == if |rest| == |v| then "" else rest[|v| + 1..]
  {
    IndexOfFirst(v, '\n', JoinLines(xs[1..]));
    hide IndexOf;
    assert xs[0] == k + ['='] + v;
    if |xs| > 1 {
      assert JoinLines(xs) == k + ['='] + (v + ['\n'] + JoinLines(xs[1..]));
    }
  }

  lemma {:induction false} SameKeysLines(l: Labels, l': Labels, xs: seq<string>, ys: seq<string>)
    requires l.Keys == l'.Keys && NoneExtends(l.Keys) && PlainValues(l) && PlainValues(l')
    requires SortedPairs(l, xs) && SortedPairs(l', ys) && JoinLines(xs) == JoinLines(ys)
    ensures l == l'
    decreases |l|
  {
    hide SortedPairs;
    if l != map[] {
      assert l' != map[] by {
        var j :| j in l;
        assert j in l'.Keys;
      }
      var k := FirstOfSorted(l, xs);
      var k' := FirstOfSorted(l', ys);
      assert k' in l.Keys;
      SameFirstKey(l, l', xs, ys, k, k');
      FirstValue(k, l[k], xs);
      FirstValue(k, l'[k], ys);
      hide JoinLines;
      hide IndexOf;
      hide Pair;
      SmallerWithout(l, k);
      FewerKeys(l, l', k);
      hide PlainValues;
      hide NoneExtends;
      SameKeysLines(l - {k}, l' - {k}, xs[1..], ys[1..]);
      PutBack(l, l', k);
    }
  }

  lemma {:induction false} FewerKeys(l: Labels, l': Labels, k: string)
    requires l.Keys == l'.Keys && NoneExtends(l.Keys) && PlainValues(l) && PlainValues(l')
    ensures (l - {k}).Keys == (l' - {k}).Keys && NoneExtends((l - {k}).Keys)
    ensures PlainValues(l - {k}) && PlainValues(l' - {k})
  {
  }

  lemma {:induction false} PutBack(l: Labels, l': Labels, k: string)
    requires k in l && k in l' && l[k] == l'[k] && l - {k} == l' - {k}
    ensures l == l'
  {
    assert l == (l - {k})[k := l[k]] && l' == (l' - {k})[k := l'[k]];
  }

  /** Two label maps over the same keys, none of which begins another, share a group key only if they are the same. */
  lemma {:induction false} SameKeysInjective(l: Labels, l': Labels, key: string)
    requires PlainValues(l) && PlainValues(l') && l.Keys == l'.Keys && NoneExtends(l.Keys)
    requires IsKey(l, key) && IsKey(l', key)
    ensures l == l'
  {
    var xs :| SortedPairs(l, xs) && key == JoinLines(xs);
    var ys :| SortedPairs(l', ys) && key == JoinLines(ys);
    SameKeysLines(l, l', xs, ys);
  }

  /** Where a key, with an equals sign after it, begins another, the rest of that other holds no line break. */
  ghost predicate SingleTails(ks: set<string>) {
    forall k, k' :: k in ks && k' in ks && k + "=" <= k' ==> PlainValue(k'[|k| + 1..])
  }

  /**
   Exactly which keys: label maps over these keys, with plain values, can always be told apart by
   their group keys if and only if no key, with an equals sign after it, begins another.
   */
  lemma {:induction false} KeyInjectiveIff(ks: set<string>)
    requires SingleTails(ks)
    ensures (forall l: Labels, l': Labels, key ::
               l.Keys == ks && l'.Keys == ks && PlainValues(l) && PlainValues(l') && IsKey(l, key) && IsKey(l', key) ==>
                 l == l')
            <==> NoneExtends(ks)
  {
    if NoneExtends(ks) {
      forall l: Labels, l': Labels, key |
        l.Keys == ks && l'.Keys == ks && PlainValues(l) && PlainValues(l') && IsKey(l, key) && IsKey(l', key)
        ensures l == l'
      {
        SameKeysInjective(l, l', key);
      }
    } else {
      var k, k' :| k in ks && k' in ks && k != k' && k + "=" <= k';
      var l, l', key := ExtensionCollides(ks, k, k');
    }
  }

  // ----- With line breaks in values -----

  /** The first two lines of the empty labels, and the rest. */
  lemma {:induction false} FirstTwoLines(ks: set<string>) returns (k: string, k': string, rest: seq<string>)
    requires |ks| >= 2
    ensures k in ks && k' in ks && k != k' && Leq(Pair(k, ""), Pair(k', ""))
    ensures SortedPairs(AllEmpty(ks) - {k, k'}, rest)
    ensures forall y :: y in ks && y != k && y != k' ==> Leq(Pair(k', ""), Pair(y, ""))
  {
    var l := AllEmpty(ks);
    var pairs := SortedPairsOf(l);
    hide Leq;
    hide PairBag;
    assert |l| == |l.Keys| && l.Keys == ks;
    assert l != map[];
    k := FirstOfSorted(l, pairs);
    SmallerWithout(l, k);
    assert Pair(k, "") == pairs[0];
    k' := FirstOfSorted(l - {k}, pairs[1..]);
    assert Pair(k', "") == pairs[1];
    rest := pairs[1..][1..];
    assert l - {k} - {k'} == l - {k, k'};
    assert Leq(pairs[0], pairs[1]);
    forall y | y in ks && y != k && y != k'
      ensures Leq(Pair(k', ""), Pair(y, ""))
    {
      PairBagHas(l - {k}, Pair(y, ""));
      assert y in l - {k} && (l - {k})[y] == "";
      assert Pair(y, "") in multiset(pairs[1..]);
      LeastFirst(pairs[1..], Pair(y, ""));
    }
  }

  lemma {:induction false} TwoLinesJoined(p: string, q: string, rest: seq<string>)
    ensures JoinLines([p, q] + rest) == p + "\n" + q + if rest == [] then "" else "\n" + JoinLines(rest)
  {
    assert ([p, q] + rest)[1..] == [q] + rest;
    assert ([q] + rest)[1..] == rest;
  }

  ghost predicate AllAbove(q: string, rest: seq<string>) {
    forall z :: z in rest ==> Leq(q, z)
  }

  lemma {:induction false} RestAbove(ks: set<string>, k: string, k': string, rest: seq<string>, v': string)
    requires NoneExtends(ks) && k' in ks && SortedPairs(AllEmpty(ks) - {k, k'}, rest)
    requires forall y :: y in ks && y != k && y != k' ==> Leq(Pair(k', ""), Pair(y, ""))
    ensures AllAbove(Pair(k', v'), rest)
  {
    hide Leq;
    forall z | z in rest
      ensures Leq(Pair(k', v'), z)
    {
      assert z in multiset(rest);
      PairBagHas(AllEmpty(ks) - {k, k'}, z);
      var y :| y in AllEmpty(ks) - {k, k'} && z == Pair(y, "");
      OrderedByKey(k', y, v', "");
    }
  }

  lemma {:induction false} TwoInFront(p: string, q: string, rest: seq<string>)
    requires Sorted(rest) && AllAbove(q, rest) && Leq(p, q)
    ensures Sorted([p, q] + rest)
  {
    hide Leq;
    forall z | z in rest
      ensures Leq(p, z)
    {
      LeqTransitive(p, q, z);
    }
    SortedCons(q, rest);
    SortedCons(p, [q] + rest);
    assert [p, q] + rest == [p] + ([q] + rest);
  }

  lemma {:induction false} TwoSetBag(ks: set<string>, k: string, v: string, k': string, v': string)
    requires k in ks && k' in ks && k != k'
    ensures PairBag(TwoSet(ks, k, v, k', v'))
            == PairBag(AllEmpty(ks) - {k, k'}) + multiset{Pair(k, v)} + multiset{Pair(k', v')}
  {
    hide PairBag;
    hide Pair;
    var l := TwoSet(ks, k, v, k', v');
    TwoLabelsTaken(l, k, k');
    assert l - {k, k'} == AllEmpty(ks) - {k, k'};
  }

  /** The key of labels that are empty but for the first two lines. */
  lemma {:induction false} KeyOfTwo(ks: set<string>, k: string, k': string, rest: seq<string>, v: string, v': string)
    requires NoneExtends(ks) && k in ks && k' in ks && k != k' && Leq(Pair(k, ""), Pair(k', ""))
    requires SortedPairs(AllEmpty(ks) - {k, k'}, rest)
    requires forall y :: y in ks && y != k && y != k' ==> Leq(Pair(k', ""), Pair(y, ""))
    ensures IsKey(TwoSet(ks, k, v, k', v'), JoinLines([Pair(k, v), Pair(k', v')] + rest))
  {
    hide Leq;
    hide Pair;
    hide PairBag;
    hide Sorted;
    var l := TwoSet(ks, k, v, k', v');
    var p, q := Pair(k, v), Pair(k', v');
    OrderedByKey(k, k', v, v');
    RestAbove(ks, k, k', rest, v');
    hide NoneExtends;
    TwoInFront(p, q, rest);
    TwoSetBag(ks, k, v, k', v');
    hide TwoSet;
    hide JoinLines;
    assert multiset([p, q] + rest) == multiset(rest) + multiset{p} + multiset{q};
    assert SortedPairs(l, [p, q] + rest);
  }

  /** A value that holds the whole second line, and the same text as two lines. */
  lemma {:induction false} ValueAsLine(k: string, k': string, rest: seq<string>)
    ensures var v := "\n" + Pair(k', "");
            JoinLines([Pair(k, v), Pair(k', "")] + rest) == JoinLines([Pair(k, ""), Pair(k', v)] + rest)
  {
    var q := Pair(k', "");
    var v := "\n" + q;
    assert Pair(k, v) == Pair(k, "") + v && Pair(k', v) == q + v;
    hide Pair;
    TwoLinesJoined(Pair(k, v), q, rest);
    TwoLinesJoined(Pair(k, ""), Pair(k', v), rest);
  }

  /** Over any two or more keys a value with a line break can pass for two lines. */
  lemma {:induction false} LineBreakCollides(ks: set<string>) returns (l: Labels, l': Labels, key: string)
    requires |ks| >= 2
    ensures l.Keys == ks && l'.Keys == ks && l != l' && IsKey(l, key) && IsKey(l', key)
  {
    hide IsKey;
    hide Leq;
    hide Pair;
    hide SortedPairs;
    if NoneExtends(ks) {
      var k, k', rest := FirstTwoLines(ks);
      var v := "\n" + Pair(k', "");
      l, l' := TwoSet(ks, k, v, k', ""), TwoSet(ks, k, "", k', v);
      key := JoinLines([Pair(k, v), Pair(k', "")] + rest);
      KeyOfTwo(ks, k, k', rest, v, "");
      KeyOfTwo(ks, k, k', rest, "", v);
      ValueAsLine(k, k', rest);
      hide JoinLines;
      assert l[k'] != l'[k'];
    } else {
      var k, k' :| k in ks && k' in ks && k != k' && k + "=" <= k';
      l, l', key := ExtensionCollides(ks, k, k');
    }
  }

  lemma {:induction false} OneLabelKey(l: Labels, k: string, key: string)
    requires l.Keys == {k} && IsKey(l, key)
    ensures key == Pair(k, l[k])
  {
    hide Pair;
    hide Leq;
    var pairs :| SortedPairs(l, pairs) && key == JoinLines(pairs);
    hide PairBag;
    var j := FirstOfSorted(l, pairs);
    assert l - {k} == map[];
    EmptyBag();
    assert |multiset(pairs[1..])| == |pairs[1..]|;
  }

  lemma {:induction false} EmptyBag()
    ensures PairBag(map[]) == multiset{}
  {
  }

  /** With any values allowed, keys tell label maps apart if and only if there is at most one label. */
  lemma {:induction false} AnyValuesInjectiveIff(ks: set<string>)
    ensures (forall l: Labels, l': Labels, key ::
               l.Keys == ks && l'.Keys == ks && IsKey(l, key) && IsKey(l', key) ==> l == l')
            <==> |ks| <= 1
  {
    if |ks| >= 2 {
      var l, l', key := LineBreakCollides(ks);
    } else {
      forall l: Labels, l': Labels, key | l.Keys == ks && l'.Keys == ks && IsKey(l, key) && IsKey(l', key)
        ensures l == l'
      {
        if k :| k in ks {
          assert ks == {k} by {
            assert |ks - {k}| == 0;
          }
          OneLabelKey(l, k, key);
          OneLabelKey(l', k, key);
          assert Pair(k, l[k])[|k| + 1..] == l[k] && Pair(k, l'[k])[|k| + 1..] == l'[k];
        }
      }
    }
  }

  /** An instance: labels of the keys a and a=b that differ in both values and share a key. */
  lemma {:induction false} EqualsSignCollides()
    ensures var l, l' := map["a" := "b=1", "a=b" := "2"], map["a" := "b=2", "a=b" := "1"];
            l != l' && l.Keys == l'.Keys && exists key :: IsKey(l, key) && IsKey(l', key)
  {
    var l, l', key := ExtensionCollides({"a", "a=b"}, "a", "a=b");
    assert "a=b"[2..] == "b" && "b=1" == "b" + "=" + "1" && "b=2" == "b" + "=" + "2";
    assert l == map["a" := "b=1", "a=b" := "2"] && l' == map["a" := "b=2", "a=b" := "1"];
    hide IsKey;
  }
}
