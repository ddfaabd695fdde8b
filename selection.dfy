/**
 * Resolving the checked leaves of the category tree back to views.
 */
module Selection {
  import opened Records

  /** A leaf whose name is gathered: checked, and without child nodes. */
  predicate Usable(n: Leaf) {
    n.checked && n.childCount == 0
  }

  /** The texts of the usable leaves of one category, in order. */
  function LeafNames(ls: seq<Leaf>): seq<string>
    decreases |ls|
  {
    if ls == [] then []
    else LeafNames(ls[..|ls| - 1]) + (if Usable(ls[|ls| - 1]) then [ls[|ls| - 1].text] else [])
  }

  /** The texts of the usable leaves of the whole tree, category by category. */
  function CheckedNames(t: seq<Category>): seq<string>
    decreases |t|
  {
    if t == [] then [] else CheckedNames(t[..|t| - 1]) + LeafNames(t[|t| - 1].leaves)
  }

  /** The views, in order, whose name is among `names`. */
  function Matching(vs: seq<View>, names: seq<string>): seq<View>
    decreases |vs|
  {
    if vs == [] then []
    else Matching(vs[..|vs| - 1], names) + (if vs[|vs| - 1].name in names then [vs[|vs| - 1]] else [])
  }

  lemma MatchingSnoc(vs: seq<View>, v: View, names: seq<string>)
    ensures Matching(vs + [v], names) == Matching(vs, names) + (if v.name in names then [v] else [])
  {
    assert (vs + [v])[..|vs|] == vs;
  }

  /** One more candidate examined: it is inserted when its name was gathered. */
  lemma MatchingStep(selected: seq<View>, vs: seq<View>, names: seq<string>, i: nat)
    requires i < |vs|
    ensures InsertAll(selected, Matching(vs[..i + 1], names)) ==
      if vs[i].name in names then Insert(InsertAll(selected, Matching(vs[..i], names)), vs[i])
      else InsertAll(selected, Matching(vs[..i], names))
  {
    assert vs[..i + 1] == vs[..i] + [vs[i]];
    MatchingSnoc(vs[..i], vs[i], names);
    InsertAllSnoc(selected, Matching(vs[..i], names), vs[i]);
    assert vs[i].name !in names ==> Matching(vs[..i + 1], names) == Matching(vs[..i], names);
  }

  /** Some usable leaf among `ls` carries the text `s`. */
  ghost predicate Offers(ls: seq<Leaf>, s: string) {
    exists l :: 0 <= l < |ls| && Usable(ls[l]) && ls[l].text == s
  }

  /** Some usable leaf of the tree carries the text `s`. */
  ghost predicate Checked(t: seq<Category>, s: string) {
    exists c :: 0 <= c < |t| && Offers(t[c].leaves, s)
  }

  lemma {:induction false} LeafNamesMembers(ls: seq<Leaf>)
    ensures forall s :: s in LeafNames(ls) <==> Offers(ls, s)
    decreases |ls|
  {
    if ls != [] {
      var init := ls[..|ls| - 1];
      LeafNamesMembers(init);
      forall s | s in LeafNames(ls) ensures Offers(ls, s) {
        if s in LeafNames(init) {
          var l :| 0 <= l < |init| && Usable(init[l]) && init[l].text == s;
          assert ls[l] == init[l];
        } else {
          assert Usable(ls[|ls| - 1]) && ls[|ls| - 1].text == s;
        }
      }
      forall s | Offers(ls, s) ensures s in LeafNames(ls) {
        var l :| 0 <= l < |ls| && Usable(ls[l]) && ls[l].text == s;
        if l < |init| {
          assert init[l] == ls[l];
          assert Offers(init, s);
        }
      }
    }
  }

  lemma CheckedSnoc(t: seq<Category>, s: string)
    requires t != []
    ensures Checked(t, s) <==> Checked(t[..|t| - 1], s) || Offers(t[|t| - 1].leaves, s)
  {
    var init := t[..|t| - 1];
    if Checked(t, s) {
      var c :| 0 <= c < |t| && Offers(t[c].leaves, s);
      if c < |init| {
        assert init[c] == t[c];
      }
    }
    if Checked(init, s) {
      var c :| 0 <= c < |init| && Offers(init[c].leaves, s);
      assert t[c] == init[c];
    }
  }

  /** A name is gathered exactly when some checked, childless leaf carries it:
      leaves with children never contribute. */
  lemma {:induction false} CheckedNamesMembers(t: seq<Category>)
    ensures forall s :: s in CheckedNames(t) <==> Checked(t, s)
    decreases |t|
  {
    if t != [] {
      var init := t[..|t| - 1];
      var last := t[|t| - 1];
      CheckedNamesMembers(init);
      LeafNamesMembers(last.leaves);
      assert CheckedNames(t) == CheckedNames(init) + LeafNames(last.leaves);
      forall s ensures s in CheckedNames(t) <==> Checked(t, s) {
        CheckedSnoc(t, s);
      }
    }
  }

  /** A view matches exactly when it is among the candidates and its name is
      among the gathered names; names matching no candidate add nothing. */
  lemma {:induction false} MatchingMembers(vs: seq<View>, names: seq<string>)
    ensures forall v :: v in Matching(vs, names) <==> v in vs && v.name in names
    decreases |vs|
  {
    if vs != [] {
      var init := vs[..|vs| - 1];
      MatchingMembers(init, names);
      assert vs == init + [vs[|vs| - 1]];
    }
  }

  /** The selection after resolving: the old selection keeps its order, and
      the views added are exactly the known views named by some checked,
      childless leaf; no view appears twice. */
  lemma ResolveSelection(selected: seq<View>, all: seq<View>, t: seq<Category>)
    requires NoDup(selected)
    ensures var r := InsertAll(selected, Matching(all, CheckedNames(t)));
      && NoDup(r)
      && |r| >= |selected| && r[..|selected|] == selected
      && forall v :: v in r <==> v in selected || (v in all && Checked(t, v.name))
  {
    var names := CheckedNames(t);
    InsertAllNoDup(selected, Matching(all, names));
    InsertAllMembers(selected, Matching(all, names));
    MatchingMembers(all, names);
    CheckedNamesMembers(t);
  }

  /** The first phase of SelectViews: gather the texts of the checked,
      childless leaves, category by category. */
  method GatherCheckedNames(t: seq<Category>) returns (names: seq<string>)
    ensures names == CheckedNames(t)
  {
    names := [];
    var c := 0;
    while c < |t|
      invariant 0 <= c <= |t|
      invariant names == CheckedNames(t[..c])
    {
      var leaves := t[c].leaves;
      var l := 0;
      while l < |leaves|
        invariant 0 <= l <= |leaves|
        invariant names == CheckedNames(t[..c]) + LeafNames(leaves[..l])
      {
        var n := leaves[l];
        if n.checked && 0 == n.childCount {
          names := names + [n.text];
        }
        assert leaves[..l + 1][..l] == leaves[..l];
        l := l + 1;
      }
      assert leaves[..l] == leaves;
      assert t[..c + 1][..c] == t[..c];
      c := c + 1;
    }
    assert t[..c] == t;
  }
}
