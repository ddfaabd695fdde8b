/**
 * Plain records that stand in for the Revit objects the views manager reads,
 * its error conditions, and the insertion-ordered set that models a ViewSet.
 */
module Records {

  datatype Option<T> = None | Some(value: T)

  datatype Outcome<E> = Pass | Fail(error: E)

  datatype Result<T, E> = Success(value: T) | Failure(error: E)

  /** A view element: `id` stands for its element id, `typeName` for the name
      of its ElementType (None when the type element is missing), and
      `viewType` for the text of its ViewType enumeration value. */
  datatype View = View(id: nat, name: string, isTemplate: bool, typeName: Option<string>, viewType: string)

  /** A title-block family symbol: the name of its family and its own name. */
  datatype TitleBlock = TitleBlock(familyName: string, typeName: string)

  /** A tree node under a category: its text, its checkbox and how many
      child nodes it has. */
  datatype Leaf = Leaf(text: string, checked: bool, childCount: nat)

  /** A category node of the view tree: its tag (the view type name), the
      text shown for it and its leaves in display order. */
  datatype Category = Category(tag: string, text: string, leaves: seq<Leaf>)

  /** The exceptions the manager throws. */
  datatype Error =
    | NullArgument(param: string)
    | NoTitleBlock
    | NoViewSelected
    | ViewReused(viewName: string)

  /** The message each exception carries (for a null argument, its
      ParamName). */
  function Message(e: Error): string {
    match e
    case NullArgument(p) => p
    case NoTitleBlock => "There is no title block to generate sheet."
    case NoViewSelected => "No view be selected, generate sheet be canceled."
    case ViewReused(n) => "The view '" + n + "' can't be added, it may have already been placed in another sheet."
  }

  /** The placement error's message quotes the view's name. */
  lemma ViewReusedNamesView(n: string)
    ensures var m := Message(ViewReused(n));
      |m| >= 10 + |n| && m[10..10 + |n|] == n
  {
    var m := Message(ViewReused(n));
    assert m == ("The view '" + n) + "' can't be added, it may have already been placed in another sheet.";
    assert ("The view '" + n)[10..] == n;
  }

  ghost predicate NoDup<T>(s: seq<T>) {
    forall i, j :: 0 <= i < j < |s| ==> s[i] != s[j]
  }

  /** ViewSet.Insert: an element already present is not added again;
      otherwise it goes after everything inserted before it. */
  function Insert<T(==)>(s: seq<T>, x: T): seq<T> {
    if x in s then s else s + [x]
  }

  /** Inserting the elements of `t` one after another. */
  function InsertAll<T(==)>(s: seq<T>, t: seq<T>): seq<T>
    decreases |t|
  {
    if t == [] then s else Insert(InsertAll(s, t[..|t| - 1]), t[|t| - 1])
  }

  lemma InsertAllSnoc<T>(s: seq<T>, t: seq<T>, x: T)
    ensures InsertAll(s, t + [x]) == Insert(InsertAll(s, t), x)
  {
    assert (t + [x])[..|t|] == t;
  }

  lemma NoDupTail<T>(s: seq<T>)
    requires NoDup(s) && s != []
    ensures NoDup(s[1..]) && s[0] !in s[1..]
  {
    forall i, j | 0 <= i < j < |s[1..]| ensures s[1..][i] != s[1..][j] {
      assert s[1..][i] == s[i + 1] && s[1..][j] == s[j + 1];
    }
    forall k | 0 <= k < |s[1..]| ensures s[1..][k] != s[0] {
      assert s[1..][k] == s[k + 1];
    }
  }

  lemma InsertKeeps<T>(s: seq<T>, x: T)
    ensures NoDup(s) ==> NoDup(Insert(s, x))
    ensures forall y :: y in Insert(s, x) <==> y in s || y == x
    ensures |Insert(s, x)| >= |s| && Insert(s, x)[..|s|] == s
  {
  }

  /** After inserting `t`, the set holds exactly the old elements and those
      of `t`; the old elements keep their positions. */
  lemma {:induction false} InsertAllMembers<T>(s: seq<T>, t: seq<T>)
    ensures forall y :: y in InsertAll(s, t) <==> y in s || y in t
    ensures |InsertAll(s, t)| >= |s| && InsertAll(s, t)[..|s|] == s
    decreases |t|
  {
    if t != [] {
      var init := t[..|t| - 1];
      InsertAllMembers(s, init);
      InsertKeeps(InsertAll(s, init), t[|t| - 1]);
      assert t == init + [t[|t| - 1]];
      var r := InsertAll(s, t);
      assert r[..|s|] == InsertAll(s, init)[..|s|];
    }
  }

  /** Inserting never produces a duplicate. */
  lemma {:induction false} InsertAllNoDup<T>(s: seq<T>, t: seq<T>)
    requires NoDup(s)
    ensures NoDup(InsertAll(s, t))
    decreases |t|
  {
    if t != [] {
      InsertAllNoDup(s, t[..|t| - 1]);
      InsertKeeps(InsertAll(s, t[..|t| - 1]), t[|t| - 1]);
    }
  }

  /** When nothing inserted is already present or repeated, the set is the
      plain concatenation: insertion order is preserved. */
  lemma {:induction false} InsertAllDistinct<T>(s: seq<T>, t: seq<T>)
    requires NoDup(s + t)
    ensures InsertAll(s, t) == s + t
    decreases |t|
  {
    if t != [] {
      var init := t[..|t| - 1];
      var x := t[|t| - 1];
      assert s + t == (s + init) + [x];
      assert NoDup(s + init) by {
        forall i, j | 0 <= i < j < |s + init|
          ensures (s + init)[i] != (s + init)[j]
        {
          assert (s + init)[i] == (s + t)[i] && (s + init)[j] == (s + t)[j];
        }
      }
      InsertAllDistinct(s, init);
      assert x !in s + init by {
        forall k | 0 <= k < |s + init|
          ensures (s + init)[k] != x
        {
          assert (s + init)[k] == (s + t)[k] && x == (s + t)[|s + t| - 1];
        }
      }
    }
  }
}
