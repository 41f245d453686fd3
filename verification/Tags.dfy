// Hierarchical tags, the views that walk them, and which tags a queue keeps in order.
module Tags {
  type Key(==, !new)

  // Static tags (stag) and dynamic tags (dtag) enter the tree differently.
  datatype Kind = Static | Dynamic

  predicate Related(p: seq<Key>, q: seq<Key>) {
    p <= q || q <= p
  }

  // stag_view and dtag_view: a tag and the level that has been reached in it.
  datatype View = View(tag: seq<Key>, level: nat) {
    predicate Valid() { level < |tag| }

    function Key(): Key
      requires Valid()
    {
      tag[level]
    }

    // the tag of a chain created under Key()
    function Sub(): (s: seq<Key>)
      requires Valid()
      ensures s <= tag && |s| == level + 1 && s[level] == Key()
    {
      tag[..level + 1]
    }

    predicate Last()
      requires Valid()
    {
      level == |tag| - 1
    }

    function Next(): (v: View)
      requires Valid()
      ensures v.Valid()
    {
      View(tag, if Last() then level else level + 1)
    }
  }

  // The keys under which a reservation descends once it stands in a chain with this view.
  function Walk(v: View): seq<Key>
    requires v.Valid()
    decreases |v.tag| - v.level
  {
    if v.Last() then [] else [v.Next().Key()] + Walk(v.Next())
  }

  // The root chain of a static queue looks the child up before it advances the view.
  function RootWalk(kind: Kind, tag: seq<Key>): seq<Key>
    requires tag != []
  {
    var v := View(tag, 0);
    if kind == Static then [v.Key()] + Walk(v) else Walk(v)
  }

  // The part of a tag that a queue goes by.
  function Effective(kind: Kind, tag: seq<Key>): seq<Key>
    requires tag != []
  {
    if kind == Static then tag else tag[1..]
  }

  lemma {:induction false} WalkIsSuffix(v: View)
    requires v.Valid()
    ensures Walk(v) == v.tag[v.level + 1..]
    decreases |v.tag| - v.level
  {
    if !v.Last() {
      WalkIsSuffix(v.Next());
      assert v.tag[v.level + 1..] == [v.tag[v.level + 1]] + v.tag[v.level + 2..];
    }
  }

  lemma RootWalkIsEffective(kind: Kind, tag: seq<Key>)
    requires tag != []
    ensures RootWalk(kind, tag) == Effective(kind, tag)
  {
    WalkIsSuffix(View(tag, 0));
  }

  lemma RelatedStep(k: Key, p: seq<Key>, j: Key, q: seq<Key>)
    ensures Related([k] + p, [j] + q) <==> k == j && Related(p, q)
  {
    assert ([k] + p)[0] == k && ([j] + q)[0] == j;
    assert ([k] + p)[1..] == p && ([j] + q)[1..] == q;
    if k == j && p <= q { assert [k] + p <= [j] + q; }
    if k == j && q <= p { assert [j] + q <= [k] + p; }
    if [k] + p <= [j] + q {
      assert p == ([j] + q)[1..|p| + 1];
      assert p <= q;
    }
    if [j] + q <= [k] + p {
      assert q == ([k] + p)[1..|q| + 1];
      assert q <= p;
    }
  }

  // A queue keeps related tags in order; it keeps others in order only if it is dynamic, their first
  // components differ and what follows is related.
  lemma SerialisedExactly(kind: Kind, a: seq<Key>, b: seq<Key>)
    requires a != [] && b != []
    ensures Related(a, b) ==> Related(Effective(kind, a), Effective(kind, b))
    ensures (Related(Effective(kind, a), Effective(kind, b)) ==> Related(a, b))
       <==> kind == Static || a[0] == b[0] || !Related(a[1..], b[1..])
  {
    RelatedStep(a[0], a[1..], b[0], b[1..]);
    assert a == [a[0]] + a[1..] && b == [b[0]] + b[1..];
  }

  // Tags that differ in their first component are unrelated, yet a dynamic queue keeps them in order.
  lemma DynamicIgnoresFirst(x: Key, y: Key, k: Key)
    requires x != y
    ensures !Related([x, k], [y, k])
    ensures Related(Effective(Dynamic, [x, k]), Effective(Dynamic, [y, k]))
  {
    assert [x, k][0] == x && [y, k][0] == y;
    assert [x, k][1..] == [k] && [y, k][1..] == [k];
  }
}
