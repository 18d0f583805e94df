/**
 * The parsed message bundle (`messages/en.json`) as a closed tree, and the
 * reference meaning of the recursive translation walk shared by the two
 * translation scripts (scripts/translate-with-deepl.js and
 * scripts/translate-with-google.js).
 *
 * The walk is given here as pure functions; the scripts' own imperative
 * `translateObject` methods are proved equal to `Walk`, and everything the
 * scripts promise about the output is proved about `Walk`.
 */
module JsonTree {
  import opened Wrappers

  /** A JSON value as `JSON.parse` produces it. */
  datatype Value =
    | Str(text: string)
    | Num(number: real)
    | Bool(flag: bool)
    | Null
    | Arr(items: seq<Value>)
    | Obj(members: seq<Member>)

  /** One own property of an object, in `Object.entries` order. */
  datatype Member = Member(key: string, value: Value)

  /**
   * A translation provider. It is asked `p(n, text, target)` where `n` is
   * the number of provider calls made before this one; `Some(t)` is a
   * translation, `None` a rejected call (network error, quota, bad target).
   * The call index lets the provider be any stream of outcomes.
   */
  type Provider<-L> = (nat, string, L) -> Option<string>

  // ---------------------------------------------------------------------
  // countStrings

  /** Number of string leaves: 1 for a string, the sum over the elements of
      an array or the values of an object, 0 for a number, boolean or null. */
  function LeafCount(v: Value): nat {
    match v
    case Str(_) => 1
    case Arr(items) => ItemsLeafCount(items)
    case Obj(members) => MembersLeafCount(members)
    case _ => 0
  }

  function ItemsLeafCount(items: seq<Value>): nat {
    if items == [] then 0
    else
      var n := |items| - 1;
      ItemsLeafCount(items[..n]) + LeafCount(items[n])
  }

  function MembersLeafCount(members: seq<Member>): nat {
    if members == [] then 0
    else
      var n := |members| - 1;
      MembersLeafCount(members[..n]) + LeafCount(members[n].value)
  }

  // ---------------------------------------------------------------------
  // Reference views of a document

  /** The string leaves, depth first, in array order and key order. */
  function Leaves(v: Value): seq<string> {
    match v
    case Str(t) => [t]
    case Arr(items) => ItemsLeaves(items)
    case Obj(members) => MembersLeaves(members)
    case _ => []
  }

  function ItemsLeaves(items: seq<Value>): seq<string> {
    if items == [] then []
    else
      var n := |items| - 1;
      ItemsLeaves(items[..n]) + Leaves(items[n])
  }

  function MembersLeaves(members: seq<Member>): seq<string> {
    if members == [] then []
    else
      var n := |members| - 1;
      MembersLeaves(members[..n]) + Leaves(members[n].value)
  }

  /** Number of key/value pairs at all depths. */
  function Pairs(v: Value): nat {
    match v
    case Arr(items) => ItemsPairs(items)
    case Obj(members) => MembersPairs(members)
    case _ => 0
  }

  function ItemsPairs(items: seq<Value>): nat {
    if items == [] then 0
    else
      var n := |items| - 1;
      ItemsPairs(items[..n]) + Pairs(items[n])
  }

  function MembersPairs(members: seq<Member>): nat {
    if members == [] then 0
    else
      var n := |members| - 1;
      MembersPairs(members[..n]) + 1 + Pairs(members[n].value)
  }

  /** `a` and `b` have the same structure: strings match strings, arrays
      have the same length, objects the same keys in the same order, each
      child pair again has the same structure, and every number, boolean and
      null is equal. */
  predicate SameShape(a: Value, b: Value) {
    match a
    case Str(_) => b.Str?
    case Arr(xs) => b.Arr? && SameShapeItems(xs, b.items)
    case Obj(ms) => b.Obj? && SameShapeMembers(ms, b.members)
    case _ => a == b
  }

  predicate SameShapeItems(xs: seq<Value>, ys: seq<Value>) {
    |xs| == |ys| && forall i :: 0 <= i < |xs| ==> SameShape(xs[i], ys[i])
  }

  predicate SameShapeMembers(ms: seq<Member>, ns: seq<Member>) {
    |ms| == |ns| &&
    forall i :: 0 <= i < |ms| ==> ms[i].key == ns[i].key && SameShape(ms[i].value, ns[i].value)
  }

  // ---------------------------------------------------------------------
  // Leaf-level reference: what each provider call yields

  /** The text that ends up in place of each leaf when the i-th leaf is sent
      as call `start + i`: the translation, or the original on failure. */
  function Answered<L>(p: Provider<L>, lang: L, start: nat, texts: seq<string>): seq<string> {
    if texts == [] then []
    else
      var n := |texts| - 1;
      Answered(p, lang, start, texts[..n]) + [p(start + n, texts[n], lang).GetOr(texts[n])]
  }

  /** Number of those calls that returned a translation. */
  function Succeeded<L>(p: Provider<L>, lang: L, start: nat, texts: seq<string>): nat {
    if texts == [] then 0
    else
      var n := |texts| - 1;
      Succeeded(p, lang, start, texts[..n]) + (if p(start + n, texts[n], lang).Some? then 1 else 0)
  }

  /** Number of those calls that failed. */
  function Failed<L>(p: Provider<L>, lang: L, start: nat, texts: seq<string>): nat {
    if texts == [] then 0
    else
      var n := |texts| - 1;
      Failed(p, lang, start, texts[..n]) + (if p(start + n, texts[n], lang).None? then 1 else 0)
  }

  // ---------------------------------------------------------------------
  // translateObject, as a function

  /** Result of walking a subtree: the rebuilt subtree and how many leaves
      the provider translated. */
  datatype Walked<T> = Walked(out: T, translated: nat)

  /** The depth-first walk, the first leaf being provider call `start`. */
  function Walk<L>(p: Provider<L>, lang: L, start: nat, v: Value): Walked<Value>
    decreases v
  {
    match v
    case Str(text) =>
      (match p(start, text, lang)
       case Some(t) => Walked(Str(t), 1)
       case None => Walked(v, 0))
    case Arr(items) =>
      var w := WalkItems(p, lang, start, items);
      Walked(Arr(w.out), w.translated)
    case Obj(members) =>
      var w := WalkMembers(p, lang, start, members);
      Walked(Obj(w.out), w.translated)
    case _ => Walked(v, 0)
  }

  function WalkItems<L>(p: Provider<L>, lang: L, start: nat, items: seq<Value>): (w: Walked<seq<Value>>)
    ensures |w.out| == |items|
    decreases items
  {
    if items == [] then Walked([], 0)
    else
      var n := |items| - 1;
      var init := WalkItems(p, lang, start, items[..n]);
      var last := Walk(p, lang, start + ItemsLeafCount(items[..n]), items[n]);
      Walked(init.out + [last.out], init.translated + last.translated)
  }

  function WalkMembers<L>(p: Provider<L>, lang: L, start: nat, members: seq<Member>): (w: Walked<seq<Member>>)
    ensures |w.out| == |members|
    decreases members
  {
    if members == [] then Walked([], 0)
    else
      var n := |members| - 1;
      var init := WalkMembers(p, lang, start, members[..n]);
      var last := Walk(p, lang, start + MembersLeafCount(members[..n]), members[n].value);
      Walked(init.out + [Member(members[n].key, last.out)], init.translated + last.translated)
  }

  // ---------------------------------------------------------------------
  // One more element: how the list walks and counts grow by one step

  lemma ItemsStep<L>(p: Provider<L>, lang: L, start: nat, items: seq<Value>, i: nat)
    requires i < |items|
    ensures var w := WalkItems(p, lang, start, items[..i]);
            var last := Walk(p, lang, start + ItemsLeafCount(items[..i]), items[i]);
            WalkItems(p, lang, start, items[..i + 1]) == Walked(w.out + [last.out], w.translated + last.translated)
    ensures ItemsLeafCount(items[..i + 1]) == ItemsLeafCount(items[..i]) + LeafCount(items[i])
    ensures ItemsPairs(items[..i + 1]) == ItemsPairs(items[..i]) + Pairs(items[i])
  {
    assert items[..i + 1][..i] == items[..i];
  }

  lemma MembersStep<L>(p: Provider<L>, lang: L, start: nat, members: seq<Member>, i: nat)
    requires i < |members|
    ensures var w := WalkMembers(p, lang, start, members[..i]);
            var last := Walk(p, lang, start + MembersLeafCount(members[..i]), members[i].value);
            WalkMembers(p, lang, start, members[..i + 1]) ==
              Walked(w.out + [Member(members[i].key, last.out)], w.translated + last.translated)
    ensures MembersLeafCount(members[..i + 1]) == MembersLeafCount(members[..i]) + LeafCount(members[i].value)
    ensures MembersPairs(members[..i + 1]) == MembersPairs(members[..i]) + 1 + Pairs(members[i].value)
  {
    assert members[..i + 1][..i] == members[..i];
  }

  // ---------------------------------------------------------------------
  // Lemmas about the leaf-level reference

  lemma {:induction false} SucceededConcat<L>(p: Provider<L>, lang: L, start: nat, a: seq<string>, b: seq<string>)
    ensures Succeeded(p, lang, start, a + b) == Succeeded(p, lang, start, a) + Succeeded(p, lang, start + |a|, b)
    decreases |b|
  {
    if b == [] {
      assert a + b == a;
    } else {
      var n := |b| - 1;
      assert (a + b)[..|a| + n] == a + b[..n];
      assert (a + b)[|a| + n] == b[n];
      SucceededConcat(p, lang, start, a, b[..n]);
    }
  }

  /** Answer i is the provider's answer to call `start + i` on leaf i, or
      that leaf when the call failed. */
  lemma {:induction false} AnsweredAt<L>(p: Provider<L>, lang: L, start: nat, texts: seq<string>)
    ensures |Answered(p, lang, start, texts)| == |texts|
    ensures forall i :: 0 <= i < |texts| ==>
      Answered(p, lang, start, texts)[i] == p(start + i, texts[i], lang).GetOr(texts[i])
    decreases |texts|
  {
    if texts != [] {
      var n := |texts| - 1;
      AnsweredAt(p, lang, start, texts[..n]);
    }
  }

  lemma {:induction false} AnsweredConcat<L>(p: Provider<L>, lang: L, start: nat, a: seq<string>, b: seq<string>)
    ensures Answered(p, lang, start, a + b) == Answered(p, lang, start, a) + Answered(p, lang, start + |a|, b)
    decreases |b|
  {
    if b == [] {
      assert a + b == a;
    } else {
      var n := |b| - 1;
      var last := [p(start + |a| + n, b[n], lang).GetOr(b[n])];
      calc {
        Answered(p, lang, start, a + b);
        { assert (a + b)[..|a| + n] == a + b[..n] && (a + b)[|a| + n] == b[n]; }
        Answered(p, lang, start, a + b[..n]) + last;
        { AnsweredConcat(p, lang, start, a, b[..n]); }
        Answered(p, lang, start, a) + (Answered(p, lang, start + |a|, b[..n]) + last);
        Answered(p, lang, start, a) + Answered(p, lang, start + |a|, b);
      }
    }
  }

  /** Every call either succeeds or fails. */
  lemma {:induction false} SucceededPlusFailed<L>(p: Provider<L>, lang: L, start: nat, texts: seq<string>)
    ensures Succeeded(p, lang, start, texts) + Failed(p, lang, start, texts) == |texts|
    decreases |texts|
  {
    if texts != [] {
      SucceededPlusFailed(p, lang, start, texts[..|texts| - 1]);
    }
  }

  /** When every call succeeds, every leaf is counted as translated. */
  lemma {:induction false} AllSucceeded<L>(p: Provider<L>, lang: L, start: nat, texts: seq<string>)
    requires forall i: nat, t: string :: p(i, t, lang).Some?
    ensures Succeeded(p, lang, start, texts) == |texts|
    decreases |texts|
  {
    if texts != [] {
      AllSucceeded(p, lang, start, texts[..|texts| - 1]);
    }
  }

  /** When every call fails or echoes its text, the leaves come back as they were. */
  lemma {:induction false} AnsweredUnchanged<L>(p: Provider<L>, lang: L, start: nat, texts: seq<string>)
    requires forall i: nat, t: string :: p(i, t, lang) == None || p(i, t, lang) == Some(t)
    ensures Answered(p, lang, start, texts) == texts
    decreases |texts|
  {
    if texts != [] {
      var n := |texts| - 1;
      AnsweredUnchanged(p, lang, start, texts[..n]);
      assert p(start + n, texts[n], lang) == None || p(start + n, texts[n], lang) == Some(texts[n]);
      assert texts == texts[..n] + [texts[n]];
    }
  }

  // ---------------------------------------------------------------------
  // Lemmas about documents

  /** `countStrings` counts exactly the leaves the walk visits. */
  lemma {:induction false} LeafCountIsLeaves(v: Value)
    ensures LeafCount(v) == |Leaves(v)|
    decreases v
  {
    match v
    case Arr(items) => ItemsLeafCountIsLeaves(items);
    case Obj(members) => MembersLeafCountIsLeaves(members);
    case _ =>
  }

  lemma {:induction false} ItemsLeafCountIsLeaves(items: seq<Value>)
    ensures ItemsLeafCount(items) == |ItemsLeaves(items)|
    decreases items
  {
    if items != [] {
      var n := |items| - 1;
      ItemsLeafCountIsLeaves(items[..n]);
      LeafCountIsLeaves(items[n]);
    }
  }

  lemma {:induction false} MembersLeafCountIsLeaves(members: seq<Member>)
    ensures MembersLeafCount(members) == |MembersLeaves(members)|
    decreases members
  {
    if members != [] {
      var n := |members| - 1;
      MembersLeafCountIsLeaves(members[..n]);
      LeafCountIsLeaves(members[n].value);
    }
  }

  /** The walk keeps the document's structure: arrays keep their length and
      order, objects their keys in order, other scalars are returned as they
      are, whatever the provider answers. */
  lemma {:induction false} WalkKeepsShape<L>(p: Provider<L>, lang: L, start: nat, v: Value)
    ensures SameShape(v, Walk(p, lang, start, v).out)
    decreases v
  {
    match v
    case Arr(items) => WalkItemsKeepsShape(p, lang, start, items);
    case Obj(members) => WalkMembersKeepsShape(p, lang, start, members);
    case _ =>
  }

  lemma {:induction false} WalkItemsKeepsShape<L>(p: Provider<L>, lang: L, start: nat, items: seq<Value>)
    ensures SameShapeItems(items, WalkItems(p, lang, start, items).out)
    decreases items
  {
    if items != [] {
      var n := |items| - 1;
      var w := WalkItems(p, lang, start, items);
      var init := WalkItems(p, lang, start, items[..n]);
      var last := Walk(p, lang, start + ItemsLeafCount(items[..n]), items[n]);
      WalkItemsKeepsShape(p, lang, start, items[..n]);
      WalkKeepsShape(p, lang, start + ItemsLeafCount(items[..n]), items[n]);
      assert w.out == init.out + [last.out];
      forall i | 0 <= i < |items| ensures SameShape(items[i], w.out[i]) {
        if i < n {
          assert items[..n][i] == items[i];
        }
      }
    }
  }

  lemma {:induction false} WalkMembersKeepsShape<L>(p: Provider<L>, lang: L, start: nat, members: seq<Member>)
    ensures SameShapeMembers(members, WalkMembers(p, lang, start, members).out)
    decreases members
  {
    if members != [] {
      var n := |members| - 1;
      var w := WalkMembers(p, lang, start, members);
      var init := WalkMembers(p, lang, start, members[..n]);
      var last := Walk(p, lang, start + MembersLeafCount(members[..n]), members[n].value);
      WalkMembersKeepsShape(p, lang, start, members[..n]);
      WalkKeepsShape(p, lang, start + MembersLeafCount(members[..n]), members[n].value);
      assert w.out == init.out + [Member(members[n].key, last.out)];
      forall i | 0 <= i < |members|
        ensures members[i].key == w.out[i].key && SameShape(members[i].value, w.out[i].value)
      {
        if i < n {
          assert members[..n][i] == members[i];
        }
      }
    }
  }

  /** The i-th leaf of the output is what the provider answered for the i-th
      source leaf, or that leaf itself when the call failed; and the walk
      counts exactly the successful calls. */
  lemma {:induction false} WalkLeaves<L>(p: Provider<L>, lang: L, start: nat, v: Value)
    ensures Leaves(Walk(p, lang, start, v).out) == Answered(p, lang, start, Leaves(v))
    ensures Walk(p, lang, start, v).translated == Succeeded(p, lang, start, Leaves(v))
    decreases v
  {
    match v
    case Str(t) =>
      assert Leaves(v)[..0] == [];
    case Arr(items) => WalkItemsLeaves(p, lang, start, items);
    case Obj(members) => WalkMembersLeaves(p, lang, start, members);
    case _ =>
  }

  lemma {:induction false} WalkItemsLeaves<L>(p: Provider<L>, lang: L, start: nat, items: seq<Value>)
    ensures ItemsLeaves(WalkItems(p, lang, start, items).out) == Answered(p, lang, start, ItemsLeaves(items))
    ensures WalkItems(p, lang, start, items).translated == Succeeded(p, lang, start, ItemsLeaves(items))
    decreases items
  {
    if items != [] {
      var n := |items| - 1;
      var w := WalkItems(p, lang, start, items);
      var init := WalkItems(p, lang, start, items[..n]);
      var mid := start + ItemsLeafCount(items[..n]);
      var last := Walk(p, lang, mid, items[n]);
      assert w == Walked(init.out + [last.out], init.translated + last.translated);
      var a, b := ItemsLeaves(items[..n]), Leaves(items[n]);
      assert ItemsLeaves(init.out) == Answered(p, lang, start, a) && init.translated == Succeeded(p, lang, start, a) by {
        WalkItemsLeaves(p, lang, start, items[..n]);
      }
      assert Leaves(last.out) == Answered(p, lang, mid, b) && last.translated == Succeeded(p, lang, mid, b) by {
        WalkLeaves(p, lang, mid, items[n]);
      }
      assert mid == start + |a| by {
        ItemsLeafCountIsLeaves(items[..n]);
      }
      assert ItemsLeaves(w.out) == ItemsLeaves(init.out) + Leaves(last.out) by {
        assert w.out[..n] == init.out;
        assert w.out[n] == last.out;
      }
      assert ItemsLeaves(items) == a + b;
      assert Answered(p, lang, start, a + b) == Answered(p, lang, start, a) + Answered(p, lang, mid, b) by {
        AnsweredConcat(p, lang, start, a, b);
      }
      assert Succeeded(p, lang, start, a + b) == Succeeded(p, lang, start, a) + Succeeded(p, lang, mid, b) by {
        SucceededConcat(p, lang, start, a, b);
      }
    }
  }

  lemma {:induction false} WalkMembersLeaves<L>(p: Provider<L>, lang: L, start: nat, members: seq<Member>)
    ensures MembersLeaves(WalkMembers(p, lang, start, members).out) == Answered(p, lang, start, MembersLeaves(members))
    ensures WalkMembers(p, lang, start, members).translated == Succeeded(p, lang, start, MembersLeaves(members))
    decreases members
  {
    if members != [] {
      var n := |members| - 1;
      var w := WalkMembers(p, lang, start, members);
      var init := WalkMembers(p, lang, start, members[..n]);
      var mid := start + MembersLeafCount(members[..n]);
      var last := Walk(p, lang, mid, members[n].value);
      assert w == Walked(init.out + [Member(members[n].key, last.out)], init.translated + last.translated);
      var a, b := MembersLeaves(members[..n]), Leaves(members[n].value);
      assert MembersLeaves(init.out) == Answered(p, lang, start, a) && init.translated == Succeeded(p, lang, start, a) by {
        WalkMembersLeaves(p, lang, start, members[..n]);
      }
      assert Leaves(last.out) == Answered(p, lang, mid, b) && last.translated == Succeeded(p, lang, mid, b) by {
        WalkLeaves(p, lang, mid, members[n].value);
      }
      assert mid == start + |a| by {
        MembersLeafCountIsLeaves(members[..n]);
      }
      assert MembersLeaves(w.out) == MembersLeaves(init.out) + Leaves(last.out) by {
        assert w.out[..n] == init.out;
        assert w.out[n].value == last.out;
      }
      assert MembersLeaves(members) == a + b;
      assert Answered(p, lang, start, a + b) == Answered(p, lang, start, a) + Answered(p, lang, mid, b) by {
        AnsweredConcat(p, lang, start, a, b);
      }
      assert Succeeded(p, lang, start, a + b) == Succeeded(p, lang, start, a) + Succeeded(p, lang, mid, b) by {
        SucceededConcat(p, lang, start, a, b);
      }
    }
  }

  /** Every document has its own shape. */
  lemma {:induction false} SameShapeReflexive(a: Value)
    ensures SameShape(a, a)
    decreases a
  {
    match a
    case Arr(xs) =>
      forall i | 0 <= i < |xs| ensures SameShape(xs[i], xs[i]) {
        SameShapeReflexive(xs[i]);
      }
    case Obj(ms) =>
      forall i | 0 <= i < |ms| ensures SameShape(ms[i].value, ms[i].value) {
        SameShapeReflexive(ms[i].value);
      }
    case _ =>
  }

  /** Having the same shape is transitive, so a document translated from an
      already translated document still has the original's shape. */
  lemma {:induction false} SameShapeTransitive(a: Value, b: Value, c: Value)
    requires SameShape(a, b) && SameShape(b, c)
    ensures SameShape(a, c)
    decreases a
  {
    match a
    case Arr(xs) =>
      forall i | 0 <= i < |xs| ensures SameShape(xs[i], c.items[i]) {
        SameShapeTransitive(xs[i], b.items[i], c.items[i]);
      }
    case Obj(ms) =>
      forall i | 0 <= i < |ms| ensures SameShape(ms[i].value, c.members[i].value) {
        SameShapeTransitive(ms[i].value, b.members[i].value, c.members[i].value);
      }
    case _ =>
  }

  /** Two documents of the same shape have equally many leaves, and if their
      leaves agree as well, they are the same document. */
  lemma {:induction false} ShapeAndLeavesDetermine(a: Value, b: Value)
    requires SameShape(a, b)
    ensures |Leaves(a)| == |Leaves(b)|
    ensures Leaves(a) == Leaves(b) ==> a == b
    decreases a
  {
    match a
    case Arr(xs) => ItemsShapeAndLeavesDetermine(xs, b.items);
    case Obj(ms) => MembersShapeAndLeavesDetermine(ms, b.members);
    case _ =>
  }

  lemma {:induction false} ItemsShapeAndLeavesDetermine(xs: seq<Value>, ys: seq<Value>)
    requires SameShapeItems(xs, ys)
    ensures |ItemsLeaves(xs)| == |ItemsLeaves(ys)|
    ensures ItemsLeaves(xs) == ItemsLeaves(ys) ==> xs == ys
    decreases xs
  {
    if xs != [] {
      var n := |xs| - 1;
      assert SameShapeItems(xs[..n], ys[..n]) by {
        forall i | 0 <= i < n ensures SameShape(xs[..n][i], ys[..n][i]) {
          assert xs[..n][i] == xs[i] && ys[..n][i] == ys[i];
        }
      }
      ItemsShapeAndLeavesDetermine(xs[..n], ys[..n]);
      ShapeAndLeavesDetermine(xs[n], ys[n]);
      var a, c := ItemsLeaves(xs[..n]), ItemsLeaves(ys[..n]);
      var b, d := Leaves(xs[n]), Leaves(ys[n]);
      if ItemsLeaves(xs) == ItemsLeaves(ys) {
        assert a + b == c + d;
        assert a == (a + b)[..|a|] && c == (c + d)[..|c|];
        assert b == (a + b)[|a|..] && d == (c + d)[|c|..];
        assert xs == xs[..n] + [xs[n]] && ys == ys[..n] + [ys[n]];
      }
    }
  }

  lemma {:induction false} MembersShapeAndLeavesDetermine(ms: seq<Member>, ns: seq<Member>)
    requires SameShapeMembers(ms, ns)
    ensures |MembersLeaves(ms)| == |MembersLeaves(ns)|
    ensures MembersLeaves(ms) == MembersLeaves(ns) ==> ms == ns
    decreases ms
  {
    if ms != [] {
      var n := |ms| - 1;
      assert SameShapeMembers(ms[..n], ns[..n]) by {
        forall i | 0 <= i < n
          ensures ms[..n][i].key == ns[..n][i].key && SameShape(ms[..n][i].value, ns[..n][i].value)
        {
          assert ms[..n][i] == ms[i] && ns[..n][i] == ns[i];
        }
      }
      MembersShapeAndLeavesDetermine(ms[..n], ns[..n]);
      ShapeAndLeavesDetermine(ms[n].value, ns[n].value);
      var a, c := MembersLeaves(ms[..n]), MembersLeaves(ns[..n]);
      var b, d := Leaves(ms[n].value), Leaves(ns[n].value);
      if MembersLeaves(ms) == MembersLeaves(ns) {
        assert a + b == c + d;
        assert a == (a + b)[..|a|] && c == (c + d)[..|c|];
        assert b == (a + b)[|a|..] && d == (c + d)[|c|..];
        assert ms[n] == Member(ms[n].key, ms[n].value);
        assert ms == ms[..n] + [ms[n]] && ns == ns[..n] + [ns[n]];
      }
    }
  }

  /** Two documents of the same shape have equally many object entries,
      so translating either pauses equally often. */
  lemma {:induction false} SameShapePairs(a: Value, b: Value)
    requires SameShape(a, b)
    ensures Pairs(a) == Pairs(b)
    decreases a
  {
    match a
    case Arr(xs) => ItemsSameShapePairs(xs, b.items);
    case Obj(ms) => MembersSameShapePairs(ms, b.members);
    case _ =>
  }

  lemma {:induction false} ItemsSameShapePairs(xs: seq<Value>, ys: seq<Value>)
    requires SameShapeItems(xs, ys)
    ensures ItemsPairs(xs) == ItemsPairs(ys)
    decreases xs
  {
    if xs != [] {
      var n := |xs| - 1;
      assert SameShapeItems(xs[..n], ys[..n]) by {
        forall i | 0 <= i < n ensures SameShape(xs[..n][i], ys[..n][i]) {
          assert xs[..n][i] == xs[i] && ys[..n][i] == ys[i];
        }
      }
      ItemsSameShapePairs(xs[..n], ys[..n]);
      SameShapePairs(xs[n], ys[n]);
    }
  }

  lemma {:induction false} MembersSameShapePairs(ms: seq<Member>, ns: seq<Member>)
    requires SameShapeMembers(ms, ns)
    ensures MembersPairs(ms) == MembersPairs(ns)
    decreases ms
  {
    if ms != [] {
      var n := |ms| - 1;
      assert SameShapeMembers(ms[..n], ns[..n]) by {
        forall i | 0 <= i < n
          ensures ms[..n][i].key == ns[..n][i].key && SameShape(ms[..n][i].value, ns[..n][i].value)
        {
          assert ms[..n][i] == ms[i] && ns[..n][i] == ns[i];
        }
      }
      MembersSameShapePairs(ms[..n], ns[..n]);
      SameShapePairs(ms[n].value, ns[n].value);
    }
  }

  /** Same shape, same number of string leaves and of object entries: the
      provider is called and the script pauses equally often for either. */
  lemma SameShapeCosts(a: Value, b: Value)
    requires SameShape(a, b)
    ensures LeafCount(a) == LeafCount(b) && Pairs(a) == Pairs(b)
  {
    ShapeAndLeavesDetermine(a, b);
    LeafCountIsLeaves(a);
    LeafCountIsLeaves(b);
    SameShapePairs(a, b);
  }

  /** A provider that fails on every call, or that returns its input text,
      leaves the document exactly as it was. */
  lemma WalkUnchanged<L>(p: Provider<L>, lang: L, start: nat, v: Value)
    requires forall i: nat, t: string :: p(i, t, lang) == None || p(i, t, lang) == Some(t)
    ensures Walk(p, lang, start, v).out == v
  {
    var w := Walk(p, lang, start, v);
    WalkKeepsShape(p, lang, start, v);
    WalkLeaves(p, lang, start, v);
    AnsweredUnchanged(p, lang, start, Leaves(v));
    ShapeAndLeavesDetermine(v, w.out);
  }

  /** An always-failing provider: output equals input and nothing is counted. */
  lemma FailingProviderKeepsDocument<L>(p: Provider<L>, lang: L, start: nat, v: Value)
    requires forall i: nat, t: string :: p(i, t, lang) == None
    ensures Walk(p, lang, start, v) == Walked(v, 0)
  {
    WalkUnchanged(p, lang, start, v);
    WalkLeaves(p, lang, start, v);
    SucceededPlusFailed(p, lang, start, Leaves(v));
    FailedAll(p, lang, start, Leaves(v));
  }

  lemma {:induction false} FailedAll<L>(p: Provider<L>, lang: L, start: nat, texts: seq<string>)
    requires forall i: nat, t: string :: p(i, t, lang) == None
    ensures Failed(p, lang, start, texts) == |texts|
    decreases |texts|
  {
    if texts != [] {
      FailedAll(p, lang, start, texts[..|texts| - 1]);
    }
  }

  /** An identity provider: output equals input and every leaf is counted. */
  lemma IdentityProviderKeepsDocument<L>(p: Provider<L>, lang: L, start: nat, v: Value)
    requires forall i: nat, t: string :: p(i, t, lang) == Some(t)
    ensures Walk(p, lang, start, v) == Walked(v, LeafCount(v))
  {
    WalkUnchanged(p, lang, start, v);
    TranslatedCount(p, lang, start, v);
  }

  /** The success counter equals the leaf count minus the failed calls, and
      the full leaf count when no call fails. */
  lemma TranslatedCount<L>(p: Provider<L>, lang: L, start: nat, v: Value)
    ensures Walk(p, lang, start, v).translated + Failed(p, lang, start, Leaves(v)) == LeafCount(v)
    ensures (forall i: nat, t: string :: p(i, t, lang).Some?) ==> Walk(p, lang, start, v).translated == LeafCount(v)
  {
    WalkLeaves(p, lang, start, v);
    LeafCountIsLeaves(v);
    SucceededPlusFailed(p, lang, start, Leaves(v));
    if forall i: nat, t: string :: p(i, t, lang).Some? {
      AllSucceeded(p, lang, start, Leaves(v));
    }
  }
}
