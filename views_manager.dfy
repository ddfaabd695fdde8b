/**
 * The views manager: it gathers the document's views into a category tree,
 * keeps the title-block registry, resolves the checked leaves into a
 * selection and generates one sheet per selected view.
 */
module ViewsManager {
  import opened Records
  import opened CategoryIndex
  import opened Selection
  import opened TitleBlocks
  import opened Grid
  import opened Host

  class ViewsMgr {
    /** The category nodes under the "Views (all)" root. */
    var tree: seq<Category>
    var allViews: seq<View>
    var selectedViews: seq<View>
    var titleBlock: Option<TitleBlock>
    var allTitleBlocks: seq<TitleBlock>
    var titleBlockNames: seq<string>
    /** The sheet-name prefix; an unset prefix reads as the empty string
        when concatenated. */
    var sheetName: string
    var rows: nat

    ghost predicate Valid()
      reads this
    {
      && NoDup(allViews)
      && NoDup(selectedViews)
      && (forall v :: v in selectedViews ==> v in allViews)
      && TagsDistinct(tree)
      && titleBlockNames == CompositeNames(allTitleBlocks)
      && (titleBlock.Some? ==> titleBlock.value in allTitleBlocks)
    }

    /** The field initialisers. */
    constructor ()
      ensures Valid()
      ensures tree == [] && allViews == [] && selectedViews == []
      ensures titleBlock == None && allTitleBlocks == [] && titleBlockNames == []
      ensures sheetName == "" && rows == 0
    {
      tree, allViews, selectedViews := [], [], [];
      titleBlock, allTitleBlocks, titleBlockNames := None, [], [];
      sheetName, rows := "", 0;
    }

    /** The constructor ViewsMgr(doc): gather the views, then the title
        blocks; the construction fails when there is no title block. */
    static method Create(elements: seq<Option<View>>, blocks: seq<TitleBlock>) returns (r: Result<ViewsMgr, Error>)
      ensures r.Failure? <==> |blocks| == 0
      ensures r.Failure? ==> r.error == NoTitleBlock
      ensures r.Success? ==> fresh(r.value) && r.value.Valid()
      ensures r.Success? ==>
        && r.value.allViews == InsertAll([], Kept(elements))
        && r.value.tree == BuildTree([], Kept(elements))
        && r.value.selectedViews == []
        && r.value.allTitleBlocks == blocks
        && r.value.titleBlockNames == CompositeNames(blocks)
        && r.value.titleBlock == Some(blocks[0])
        && r.value.sheetName == "" && r.value.rows == 0
    {
      var m := new ViewsMgr();
      m.GetAllViews(elements);
      var o := m.GetTitleBlocks(blocks);
      if o.Fail? {
        return Failure(o.error);
      }
      return Success(m);
    }

    /** Setting the SheetName property. */
    method SetSheetName(value: string)
      requires Valid()
      modifies this`sheetName
      ensures Valid()
      ensures sheetName == value
    {
      sheetName := value;
    }

    /** The selection form ticking or clearing a leaf's checkbox. */
    method SetChecked(c: nat, l: nat, checked: bool)
      requires Valid()
      requires c < |tree| && l < |tree[c].leaves|
      modifies this`tree
      ensures Valid()
      ensures tree == old(tree)[c := old(tree)[c].(leaves := old(tree)[c].leaves[l := old(tree)[c].leaves[l].(checked := checked)])]
    {
      tree := tree[c := tree[c].(leaves := tree[c].leaves[l := tree[c].leaves[l].(checked := checked)])];
    }

    /** Every kept view is inserted into the set of all views and filed in
        the tree; the others are skipped. */
    method GetAllViews(elements: seq<Option<View>>)
      requires Valid()
      modifies this`allViews, this`tree
      ensures Valid()
      ensures allViews == InsertAll(old(allViews), Kept(elements))
      ensures tree == BuildTree(old(tree), Kept(elements))
    {
      ghost var views0, tree0 := allViews, tree;
      var i := 0;
      while i < |elements|
        invariant 0 <= i <= |elements|
        invariant Valid()
        invariant allViews == InsertAll(views0, Kept(elements[..i]))
        invariant tree == BuildTree(tree0, Kept(elements[..i]))
      {
        var e := elements[i];
        KeptStep(elements, i);
        if e.None? || e.value.isTemplate {
        } else {
          var view := e.value;
          if view.typeName.None? || view.typeName.value == "Schedule" || view.typeName.value == "Drawing Sheet" {
          } else {
            InsertAllSnoc(views0, Kept(elements[..i]), view);
            BuildTreeSnoc(tree0, Kept(elements[..i]), view);
            InsertKeeps(allViews, view);
            allViews := Insert(allViews, view);
            assert Valid();
            AssortViews(view.name, view.typeName.value);
            assert allViews == InsertAll(views0, Kept(elements[..i + 1]));
          }
        }
        i := i + 1;
      }
      assert elements[..i] == elements;
    }

    /** File a view name under the first category tagged with its type, or
        under a new category appended at the end. */
    method AssortViews(view: string, typeName: string)
      requires Valid()
      modifies this`tree
      ensures Valid()
      ensures tree == Assort(old(tree), view, typeName)
    {
      AssortKeepsTagsDistinct(tree, view, typeName);
      var i := 0;
      while i < |tree|
        invariant 0 <= i <= |tree|
        invariant tree == old(tree)
        invariant forall j :: 0 <= j < i ==> tree[j].tag != typeName
      {
        if tree[i].tag == typeName {
          tree := tree[i := tree[i].(leaves := tree[i].leaves + [NewLeaf(view)])];
          return;
        }
        i := i + 1;
      }
      var categoryNode := Category(typeName, CategoryText(typeName), [NewLeaf(view)]);
      tree := tree + [categoryNode];
    }

    /** Add to the selection every known view named by a checked, childless
        leaf; the selection only ever grows. */
    method SelectViews()
      requires Valid()
      modifies this`selectedViews
      ensures Valid()
      ensures selectedViews == InsertAll(old(selectedViews), Matching(allViews, CheckedNames(tree)))
    {
      var names := GatherCheckedNames(tree);
      var i := 0;
      while i < |allViews|
        invariant 0 <= i <= |allViews|
        invariant selectedViews == InsertAll(old(selectedViews), Matching(allViews[..i], names))
      {
        var v := allViews[i];
        ghost var before := selectedViews;
        var j := 0;
        while j < |names|
          invariant 0 <= j <= |names|
          invariant forall k :: 0 <= k < j ==> names[k] != v.name
          invariant selectedViews == before
        {
          if names[j] == v.name {
            selectedViews := Insert(selectedViews, v);
            break;
          }
          j := j + 1;
        }
        assert selectedViews == if v.name in names then Insert(before, v) else before;
        MatchingStep(old(selectedViews), allViews, names, i);
        i := i + 1;
      }
      assert allViews[..i] == allViews;
      ResolveSelection(old(selectedViews), allViews, tree);
    }

    /** Select a title block by its composite name. */
    method ChooseTitleBlock(name: Option<string>) returns (o: Outcome<Error>)
      requires Valid()
      modifies this`titleBlock
      ensures Valid()
      ensures name.None? || name.value == "" ==> o == Fail(NullArgument("name")) && titleBlock == old(titleBlock)
      ensures name.Some? && name.value != "" ==>
        && o == Pass
        && titleBlock == (var found := FindBlock(allTitleBlocks, name.value);
                          if found.Some? then Some(allTitleBlocks[found.value]) else old(titleBlock))
    {
      if name.None? || name.value == "" {
        return Fail(NullArgument("name"));
      }
      var i := 0;
      while i < |allTitleBlocks|
        invariant 0 <= i <= |allTitleBlocks|
        invariant titleBlock == old(titleBlock)
        invariant forall j :: 0 <= j < i ==> CompositeName(allTitleBlocks[j]) != name.value
      {
        var f := allTitleBlocks[i];
        if name.value == f.familyName + ":" + f.typeName {
          titleBlock := Some(f);
          return Pass;
        }
        i := i + 1;
      }
      return Pass;
    }

    /** Load the registry: fail when there is no title block; otherwise list
        one composite name per block and make the first block current. */
    method GetTitleBlocks(blocks: seq<TitleBlock>) returns (o: Outcome<Error>)
      requires Valid()
      requires allTitleBlocks == [] && titleBlockNames == [] && titleBlock.None?
      modifies this`allTitleBlocks, this`titleBlockNames, this`titleBlock
      ensures Valid()
      ensures allTitleBlocks == blocks
      ensures o == if |blocks| == 0 then Fail(NoTitleBlock) else Pass
      ensures titleBlockNames == CompositeNames(blocks)
      ensures titleBlock == if |blocks| == 0 then None else Some(blocks[0])
    {
      allTitleBlocks := blocks;
      if 0 == |allTitleBlocks| {
        return Fail(NoTitleBlock);
      }
      var i := 0;
      while i < |allTitleBlocks|
        invariant 0 <= i <= |allTitleBlocks|
        invariant allTitleBlocks == blocks
        invariant titleBlockNames == CompositeNames(blocks[..i])
        invariant titleBlock == if i == 0 then None else Some(blocks[0])
      {
        var f := allTitleBlocks[i];
        assert blocks[..i + 1][..i] == blocks[..i];
        titleBlockNames := titleBlockNames + [f.familyName + ":" + f.typeName];
        if titleBlock.None? {
          titleBlock := Some(f);
        }
        i := i + 1;
      }
      assert blocks[..i] == blocks;
      return Pass;
    }

    /** The row count of the grid for `amount` items: the count is raised
        until its square root is whole; `cells` is the raised count. */
    method CalculateDistance(amount: nat) returns (cells: nat)
      requires Valid()
      modifies this`rows
      ensures Valid()
      ensures rows == CeilSqrt(amount)
      ensures cells == Square(rows) && cells >= amount
    {
      ghost var target := Square(CeilSqrt(amount));
      FloorSqrtOfSquare(CeilSqrt(amount));
      var n := amount;
      var result := FloorSqrt(n);
      while Square(result) != n
        invariant amount <= n <= target
        invariant result == FloorSqrt(n)
        decreases target - n
      {
        n := n + 1;
        result := FloorSqrt(n);
      }
      var c := CeilSqrt(amount);
      if result > c {
        SquareMonotone(c + 1, result);
      }
      rows := result;
      cells := n;
    }

    /** Place one view on its sheet; a refused placement is reported with
        the view's name. */
    method PlaceViews(view: View, sheet: nat, doc: Document) returns (o: Outcome<Error>)
      requires Valid()
      modifies this`rows, doc
      ensures Valid()
      ensures rows == 1
      ensures o == if view in old(doc.viewports) then Fail(ViewReused(view.name)) else Pass
      ensures doc.sheets == old(doc.sheets)
      ensures doc.viewports == if o.Pass? then old(doc.viewports)[view := sheet] else old(doc.viewports)
    {
      var cells := CalculateDistance(1);
      RowExamples();
      var ok := doc.CreateViewport(sheet, view);
      if !ok {
        return Fail(ViewReused(view.name));
      }
      return Pass;
    }

    /** One new sheet per selected view, in selection order; an empty
        selection is refused and the first refused placement aborts the rest. */
    method GenerateSheets(doc: Document) returns (o: Outcome<Error>)
      requires Valid() && titleBlock.Some?
      modifies doc, this`rows
      ensures Valid()
      ensures doc.State() == Generate(old(doc.State()), selectedViews, sheetName, titleBlock.value).state
      ensures o == Generate(old(doc.State()), selectedViews, sheetName, titleBlock.value).outcome
      ensures |selectedViews| > 0 ==> rows == 1
      ensures |selectedViews| == 0 ==> rows == old(rows)
    {
      if 0 == |selectedViews| {
        return Fail(NoViewSelected);
      }
      var tb := titleBlock.value;
      ghost var h0 := doc.State();
      var i := 0;
      while i < |selectedViews|
        invariant 0 <= i <= |selectedViews|
        invariant Batch(h0, selectedViews, sheetName, tb) == Batch(doc.State(), selectedViews[i..], sheetName, tb)
        invariant i > 0 ==> rows == 1
      {
        var currentView := selectedViews[i];
        ghost var h := doc.State();
        assert selectedViews[i..][0] == currentView && selectedViews[i..][1..] == selectedViews[i + 1..];
        var id := doc.CreateSheet(tb);
        doc.RenameSheet(id, sheetName + currentView.viewType + " - " + currentView.name);
        assert doc.sheets == h.sheets + [Sheet(tb, SheetTitle(sheetName, currentView))];
        assert id == |h.sheets|;
        o := PlaceViews(currentView, id, doc);
        if o.Fail? {
          return;
        }
        i := i + 1;
      }
      return Pass;
    }
  }
}
