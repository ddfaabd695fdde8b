/**
 * The view filter and the two-level category tree ("Views (all)" ->
 * one category per view type -> one leaf per view name).
 */
module CategoryIndex {
  import opened Records

  /** A collected element enters the manager when it is a view, is not a
      template, has a type element, and that type is neither a schedule nor
      a drawing sheet. */
  predicate Keep(e: Option<View>) {
    && e.Some?
    && !e.value.isTemplate
    && e.value.typeName.Some?
    && e.value.typeName.value != "Schedule"
    && e.value.typeName.value != "Drawing Sheet"
  }

  /** The kept views, in enumeration order. */
  function Kept(es: seq<Option<View>>): (r: seq<View>)
    ensures |r| <= |es|
    ensures forall v :: v in r ==> v.typeName.Some?
    decreases |es|
  {
    if es == [] then []
    else Kept(es[..|es| - 1]) + (if Keep(es[|es| - 1]) then [es[|es| - 1].value] else [])
  }

  lemma KeptSnoc(es: seq<Option<View>>, e: Option<View>)
    ensures Kept(es + [e]) == Kept(es) + (if Keep(e) then [e.value] else [])
  {
    assert (es + [e])[..|es|] == es;
  }

  lemma KeptStep(es: seq<Option<View>>, i: nat)
    requires i < |es|
    ensures Keep(es[i]) ==> Kept(es[..i + 1]) == Kept(es[..i]) + [es[i].value]
    ensures !Keep(es[i]) ==> Kept(es[..i + 1]) == Kept(es[..i])
  {
    assert es[..i + 1] == es[..i] + [es[i]];
    KeptSnoc(es[..i], es[i]);
  }

  /** A view is kept exactly when it was enumerated and passes the filter. */
  lemma {:induction false} KeptMembers(es: seq<Option<View>>)
    ensures forall v :: v in Kept(es) <==> Some(v) in es && Keep(Some(v))
    decreases |es|
  {
    if es != [] {
      var init := es[..|es| - 1];
      KeptMembers(init);
      assert es == init + [es[|es| - 1]];
    }
  }

  /** Filtering commutes with concatenation, so the enumeration order is
      preserved. */
  lemma {:induction false} KeptAppend(a: seq<Option<View>>, b: seq<Option<View>>)
    ensures Kept(a + b) == Kept(a) + Kept(b)
    decreases |b|
  {
    if b == [] {
      assert a + b == a;
    } else {
      var init := b[..|b| - 1];
      assert (a + b)[..|a + b| - 1] == a + init;
      assert (a + b)[|a + b| - 1] == b[|b| - 1];
      KeptAppend(a, init);
    }
  }

  /** Distinct elements give distinct kept views. */
  lemma {:induction false} KeptNoDup(es: seq<Option<View>>)
    requires NoDup(es)
    ensures NoDup(Kept(es))
    decreases |es|
  {
    if es != [] {
      var init := es[..|es| - 1];
      assert NoDup(init) by {
        forall i, j | 0 <= i < j < |init| ensures init[i] != init[j] {
          assert init[i] == es[i] && init[j] == es[j];
        }
      }
      KeptNoDup(init);
      KeptMembers(init);
      var last := es[|es| - 1];
      if Keep(last) {
        assert Some(last.value) !in init by {
          forall k | 0 <= k < |init| ensures init[k] != last {
            assert init[k] == es[k];
          }
        }
      }
    }
  }

  /** GetAllViews on a fresh manager: the views kept are exactly the
      enumerated elements that pass the filter, and when the enumeration
      has no repeats they are in enumeration order. */
  lemma AllViewsAreKept(es: seq<Option<View>>)
    ensures forall v :: v in InsertAll([], Kept(es)) <==> Some(v) in es && Keep(Some(v))
    ensures NoDup(es) ==> InsertAll([], Kept(es)) == Kept(es)
  {
    InsertAllMembers([], Kept(es));
    KeptMembers(es);
    if NoDup(es) {
      KeptNoDup(es);
      assert [] + Kept(es) == Kept(es);
      InsertAllDistinct([], Kept(es));
    }
  }

  /** The text of a new category node. */
  function CategoryText(typeName: string): string {
    if typeName == "Building Elevation" then "Elevations [" + typeName + "]" else typeName + "s"
  }

  /** A leaf created for a view name: unchecked, without children. */
  function NewLeaf(name: string): Leaf {
    Leaf(name, false, 0)
  }

  /** The index of the first category with the given tag, if any. */
  function FirstTag(t: seq<Category>, tag: string): (r: Option<nat>)
    ensures r.Some? ==> r.value < |t| && t[r.value].tag == tag
    ensures r.Some? ==> forall j :: 0 <= j < r.value ==> t[j].tag != tag
    ensures r.None? <==> forall j :: 0 <= j < |t| ==> t[j].tag != tag
    decreases |t|
  {
    if t == [] then None
    else if t[0].tag == tag then Some(0)
    else match FirstTag(t[1..], tag)
      case None => None
      case Some(i) => Some(i + 1)
  }

  /** AssortViews: the tree after filing one view name under a type. */
  function Assort(t: seq<Category>, name: string, typeName: string): seq<Category> {
    match FirstTag(t, typeName)
    case Some(i) => t[i := t[i].(leaves := t[i].leaves + [NewLeaf(name)])]
    case None => t + [Category(typeName, CategoryText(typeName), [NewLeaf(name)])]
  }

  ghost predicate TagsDistinct(t: seq<Category>) {
    forall i, j :: 0 <= i < j < |t| ==> t[i].tag != t[j].tag
  }

  /** Total number of leaves in the tree. */
  function LeafCount(t: seq<Category>): nat
    decreases |t|
  {
    if t == [] then 0 else LeafCount(t[..|t| - 1]) + |t[|t| - 1].leaves|
  }

  /** Filing a sequence of views one after another. */
  function BuildTree(t: seq<Category>, vs: seq<View>): seq<Category>
    requires forall v :: v in vs ==> v.typeName.Some?
    decreases |vs|
  {
    if vs == [] then t
    else
      var last := vs[|vs| - 1];
      Assort(BuildTree(t, vs[..|vs| - 1]), last.name, last.typeName.value)
  }

  lemma BuildTreeSnoc(t: seq<Category>, vs: seq<View>, v: View)
    requires forall u :: u in vs ==> u.typeName.Some?
    requires v.typeName.Some?
    ensures BuildTree(t, vs + [v]) == Assort(BuildTree(t, vs), v.name, v.typeName.value)
  {
    assert (vs + [v])[..|vs|] == vs;
  }

  /** When a category has the tag, the name becomes its new last leaf and
      nothing else in the tree changes. */
  lemma AssortIntoExisting(t: seq<Category>, name: string, typeName: string, i: nat)
    requires i < |t| && t[i].tag == typeName
    requires forall j :: 0 <= j < i ==> t[j].tag != typeName
    ensures |Assort(t, name, typeName)| == |t|
    ensures Assort(t, name, typeName)[i] == Category(t[i].tag, t[i].text, t[i].leaves + [Leaf(name, false, 0)])
    ensures forall j :: 0 <= j < |t| && j != i ==> Assort(t, name, typeName)[j] == t[j]
  {
  }

  /** When no category has the tag, exactly one category is appended: tagged
      with the type, labelled by the pluralised or special-cased type, and
      holding the single new leaf. */
  lemma AssortNew(t: seq<Category>, name: string, typeName: string)
    requires forall j :: 0 <= j < |t| ==> t[j].tag != typeName
    ensures Assort(t, name, typeName)[..|t|] == t
    ensures |Assort(t, name, typeName)| == |t| + 1
    ensures var c := Assort(t, name, typeName)[|t|];
      c.tag == typeName && c.leaves == [Leaf(name, false, 0)] &&
      c.text == (if typeName == "Building Elevation" then "Elevations [Building Elevation]" else typeName + "s")
  {
  }

  /** Filing keeps category tags pairwise distinct. */
  lemma AssortKeepsTagsDistinct(t: seq<Category>, name: string, typeName: string)
    requires TagsDistinct(t)
    ensures TagsDistinct(Assort(t, name, typeName))
  {
  }

  lemma {:induction false} LeafCountUpdate(t: seq<Category>, i: nat, c: Category)
    requires i < |t|
    ensures LeafCount(t[i := c]) == LeafCount(t) - |t[i].leaves| + |c.leaves|
    decreases |t|
  {
    var n := |t| - 1;
    var u := t[i := c];
    assert u[..n] == if i < n then t[..n][i := c] else t[..n];
    if i < n {
      LeafCountUpdate(t[..n], i, c);
    }
  }

  lemma LeafCountAppend(t: seq<Category>, c: Category)
    ensures LeafCount(t + [c]) == LeafCount(t) + |c.leaves|
  {
    assert (t + [c])[..|t|] == t;
  }

  /** There is no de-duplication: every call adds exactly one leaf. */
  lemma AssortAddsOneLeaf(t: seq<Category>, name: string, typeName: string)
    ensures LeafCount(Assort(t, name, typeName)) == LeafCount(t) + 1
  {
    match FirstTag(t, typeName)
    case Some(i) =>
      LeafCountUpdate(t, i, t[i].(leaves := t[i].leaves + [NewLeaf(name)]));
    case None =>
      LeafCountAppend(t, Category(typeName, CategoryText(typeName), [NewLeaf(name)]));
  }

  /** Filing never moves or removes what is already in the tree: categories
      keep their positions, tags and texts, and leaves keep their positions. */
  lemma AssortPreserves(t: seq<Category>, name: string, typeName: string)
    ensures var r := Assort(t, name, typeName);
      |r| >= |t| &&
      forall i :: 0 <= i < |t| ==>
        r[i].tag == t[i].tag && r[i].text == t[i].text &&
        |r[i].leaves| >= |t[i].leaves| && r[i].leaves[..|t[i].leaves|] == t[i].leaves
  {
    var r := Assort(t, name, typeName);
    forall i | 0 <= i < |t|
      ensures r[i].tag == t[i].tag && r[i].text == t[i].text
      ensures |r[i].leaves| >= |t[i].leaves| && r[i].leaves[..|t[i].leaves|] == t[i].leaves
    {
      assert (t[i].leaves + [NewLeaf(name)])[..|t[i].leaves|] == t[i].leaves;
    }
  }

  /** After filing, the view's name is the last leaf of the category tagged
      with its type. */
  lemma AssortFiles(t: seq<Category>, name: string, typeName: string)
    ensures var r := Assort(t, name, typeName);
      exists i :: 0 <= i < |r| && r[i].tag == typeName && |r[i].leaves| > 0 &&
        r[i].leaves[|r[i].leaves| - 1] == Leaf(name, false, 0)
  {
    var r := Assort(t, name, typeName);
    match FirstTag(t, typeName)
    case Some(i) =>
      assert r[i].tag == typeName;
    case None =>
      assert r[|t|].tag == typeName;
  }

  /** Building the tree keeps tags pairwise distinct. */
  lemma {:induction false} BuildTreeTagsDistinct(t: seq<Category>, vs: seq<View>)
    requires forall v :: v in vs ==> v.typeName.Some?
    requires TagsDistinct(t)
    ensures TagsDistinct(BuildTree(t, vs))
    decreases |vs|
  {
    if vs != [] {
      var last := vs[|vs| - 1];
      BuildTreeTagsDistinct(t, vs[..|vs| - 1]);
      AssortKeepsTagsDistinct(BuildTree(t, vs[..|vs| - 1]), last.name, last.typeName.value);
    }
  }

  /** Building the tree adds one leaf per view. */
  lemma {:induction false} BuildTreeLeafCount(t: seq<Category>, vs: seq<View>)
    requires forall v :: v in vs ==> v.typeName.Some?
    ensures LeafCount(BuildTree(t, vs)) == LeafCount(t) + |vs|
    decreases |vs|
  {
    if vs != [] {
      var last := vs[|vs| - 1];
      BuildTreeLeafCount(t, vs[..|vs| - 1]);
      AssortAddsOneLeaf(BuildTree(t, vs[..|vs| - 1]), last.name, last.typeName.value);
    }
  }

  /** Some category tagged `typeName` holds a fresh leaf named `name`. */
  ghost predicate Filed(t: seq<Category>, name: string, typeName: string) {
    exists i, l :: 0 <= i < |t| && 0 <= l < |t[i].leaves| &&
      t[i].tag == typeName && t[i].leaves[l] == Leaf(name, false, 0)
  }

  /** Every filed view has a leaf with its name in the category tagged with
      its type. */
  lemma {:induction false} BuildTreeFilesEveryView(t: seq<Category>, vs: seq<View>, k: nat)
    requires forall v :: v in vs ==> v.typeName.Some?
    requires k < |vs|
    ensures Filed(BuildTree(t, vs), vs[k].name, vs[k].typeName.value)
    decreases |vs|
  {
    var init := vs[..|vs| - 1];
    var last := vs[|vs| - 1];
    var prev := BuildTree(t, init);
    var r := BuildTree(t, vs);
    if k == |vs| - 1 {
      AssortFiles(prev, last.name, last.typeName.value);
      var i :| 0 <= i < |r| && r[i].tag == last.typeName.value && |r[i].leaves| > 0 &&
        r[i].leaves[|r[i].leaves| - 1] == Leaf(last.name, false, 0);
      assert r[i].leaves[|r[i].leaves| - 1] == Leaf(vs[k].name, false, 0);
      assert Filed(r, vs[k].name, vs[k].typeName.value);
    } else {
      assert vs[k] == init[k];
      BuildTreeFilesEveryView(t, init, k);
      var i, l :| 0 <= i < |prev| && 0 <= l < |prev[i].leaves| &&
        prev[i].tag == vs[k].typeName.value && prev[i].leaves[l] == Leaf(vs[k].name, false, 0);
      AssortPreserves(prev, last.name, last.typeName.value);
      assert r == Assort(prev, last.name, last.typeName.value);
      assert i < |r|;
      assert r[i].leaves[..|prev[i].leaves|] == prev[i].leaves;
      assert l < |r[i].leaves| && r[i].leaves[l] == prev[i].leaves[l];
      assert r[i].tag == vs[k].typeName.value;
      assert Filed(r, vs[k].name, vs[k].typeName.value);
    }
  }

  /** Views typed "Floor Plan", "Floor Plan" and "Building Elevation" give
      two categories: the first with two leaves, the second labelled
      "Elevations [Building Elevation]". */
  lemma FloorPlansAndElevation(a: View, b: View, c: View)
    requires a.typeName == Some("Floor Plan") && b.typeName == Some("Floor Plan")
    requires c.typeName == Some("Building Elevation")
    ensures var r := BuildTree([], [a, b, c]);
      |r| == 2 && |r[0].leaves| == 2 && |r[1].leaves| == 1 &&
      r[0].text == "Floor Plans" && r[1].text == "Elevations [Building Elevation]"
  {
    assert [a, b, c][..2] == [a, b];
    assert [a, b][..1] == [a];
    assert [a][..0] == [];
    var t1 := BuildTree([], [a]);
    var t2 := BuildTree([], [a, b]);
    var t3 := BuildTree([], [a, b, c]);
    assert BuildTree([], []) == [];
    assert t1 == Assort(BuildTree([], []), a.name, a.typeName.value);
    AssortNew([], a.name, "Floor Plan");
    assert t2 == Assort(t1, b.name, "Floor Plan");
    AssortIntoExisting(t1, b.name, "Floor Plan", 0);
    assert t3 == Assort(t2, c.name, "Building Elevation");
    assert t2[0].tag == "Floor Plan" != "Building Elevation";
    AssortNew(t2, c.name, "Building Elevation");
  }
}
