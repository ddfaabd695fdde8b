# ViewsMgr: view tree, selection, title blocks and sheet generation

This project models the non-geometric core of the `ViewsMgr` class of the
"generate sheets" add-in (App.cs:154-523). The manager does five things:

- It collects the document's views into a ViewSet, skipping templates,
  schedules and drawing sheets.
- It files each view's name as a leaf of a two-level tree, with one category
  per view type.
- It resolves the checked, childless leaves of that tree back into a growing
  selection of views.
- It keeps the registry of title blocks: their `family:type` names, the
  current block, and lookup by name.
- It generates one sheet per selected view and places the view on it. The
  first view that cannot be placed stops the batch.

Revit objects become plain records (`Records`). A view is id, name,
template flag, optional type name and view-type text. A title block is family
name and type name. The tree is a sequence of categories, each holding a tag,
a text and a sequence of leaves. A ViewSet is an insertion-ordered sequence
without repeats (`Insert`, `InsertAll`).

The manager is the class `ViewsManager.ViewsMgr`. Its fields are the fields
of the source class, and its methods keep the source's loops. Each method is
proved against a pure specification function, and the properties the
add-in relies on are proved about those functions:

- `CategoryIndex`: the view filter `Kept`, and tree building (`Assort`,
  `BuildTree`).
- `Selection`: `CheckedNames` and `Matching`.
- `TitleBlocks`: `CompositeNames` and `FindBlock`.
- `Grid`: the row count `CeilSqrt`.
- `Host`: the batch of sheets `Batch`/`Generate`, run against an abstract
  document.

The document is the class `Host.Document`. It holds the list of sheets and,
for each view that already has a viewport, the sheet index it was placed on.
Creating a sheet appends one. Creating a viewport fails exactly when the
view already has one. That failure is the `ArgumentException` the source
catches and rewraps.

The element enumeration and the title-block collector are parameters
(`elements`, `blocks`). A `None` element stands for an element that is not a
view, and a `None` type name for a missing ElementType. The checkbox of a
leaf is set by a form that is not part of this model, so the method
`SetChecked` stands in for it. The constructor is `ViewsMgr.Create`. It
returns `Failure(NoTitleBlock)` where the source's constructor throws.

## Model

| member | source | states |
|---|---|---|
| ViewsManager.ViewsMgr.constructor | App.cs:156-163 | the field initialisers: empty tree, view set, selection and registry, no current title block, an empty prefix and a zero row count; the manager's invariant holds |
| ViewsManager.ViewsMgr.SetSheetName | App.cs:199-202 | the `SheetName` setter: the prefix becomes the given value |
| CategoryIndex.Keep | App.cs:228-239 | the filter itself: the element is a view, not a template, has a type element, and the type is neither "Schedule" nor "Drawing Sheet"; its meaning over an enumeration is `KeptMembers` |
| CategoryIndex.Kept | App.cs:224-246 | the kept views are never more than the enumerated elements, and each has a type |
| CategoryIndex.KeptMembers | App.cs:228-239 | a view is kept exactly when it was enumerated, is not a template, has a type, and the type is neither "Schedule" nor "Drawing Sheet" |
| CategoryIndex.KeptAppend | App.cs:224-246 | filtering commutes with concatenation, so enumeration order is preserved |
| CategoryIndex.AllViewsAreKept | App.cs:219-247 | on a fresh manager the view set holds exactly the elements that pass the filter; without repeated elements it is the filtered sequence in order |
| ViewsManager.ViewsMgr.GetAllViews | App.cs:219-247 | each kept element is inserted into the view set and filed in the tree, in enumeration order; the manager's invariant is kept |
| CategoryIndex.FirstTag | App.cs:256-263 | finds the first category whose tag equals the type, or reports that there is none |
| CategoryIndex.Assort | App.cs:254-277 | the tree after filing one name under a type: the first matching category gains a leaf, or else a new category is appended; its properties are the `Assort…` lemmas below |
| CategoryIndex.AssortIntoExisting | App.cs:256-263 | with a matching category, the name becomes its last leaf (unchecked, childless); every other category is unchanged |
| CategoryIndex.AssortNew | App.cs:265-276 | with no matching category, exactly one category is appended, tagged with the type, holding the single leaf, and labelled "Elevations [Building Elevation]" or type + "s" |
| CategoryIndex.AssortKeepsTagsDistinct | App.cs:254-277 | filing keeps category tags pairwise distinct |
| CategoryIndex.AssortAddsOneLeaf | App.cs:254-277 | filing adds exactly one leaf to the whole tree (no de-duplication) |
| CategoryIndex.AssortPreserves | App.cs:254-277 | existing categories keep position, tag and text, and existing leaves keep their positions |
| CategoryIndex.AssortFiles | App.cs:254-277 | after filing, the name is the last leaf of a category tagged with the type |
| ViewsManager.ViewsMgr.AssortViews | App.cs:254-277 | the loop with early return leaves the tree equal to the specification of filing, and tags stay distinct |
| CategoryIndex.BuildTreeTagsDistinct | App.cs:224-246 | building the tree from any views keeps tags distinct |
| CategoryIndex.BuildTreeLeafCount | App.cs:224-246 | the tree gains one leaf per kept view |
| CategoryIndex.BuildTreeFilesEveryView | App.cs:224-246 | every kept view's name is a leaf of the category tagged with its type |
| CategoryIndex.FloorPlansAndElevation | App.cs:254-277 | two floor plans and one building elevation give "Floor Plans" with two leaves, then "Elevations [Building Elevation]" with one |
| Selection.GatherCheckedNames | App.cs:284-294 | the nested loops gather exactly the texts of the checked, childless leaves, category by category |
| Selection.LeafNamesMembers | App.cs:287-293 | a text is gathered from a category exactly when one of its leaves is checked, has no children and carries that text |
| Selection.CheckedNamesMembers | App.cs:284-294 | a text is gathered exactly when some checked, childless leaf of the tree carries it; leaves with children never contribute |
| Selection.MatchingMembers | App.cs:296-306 | a view matches exactly when it is a known view whose name was gathered; names matching no view add nothing |
| Selection.MatchingStep | App.cs:296-306 | examining one more known view inserts it exactly when its name was gathered |
| Selection.ResolveSelection | App.cs:282-307 | the new selection keeps the old one as a prefix, has no repeats, and holds exactly the old views and the known views named by a checked, childless leaf |
| ViewsManager.ViewsMgr.SelectViews | App.cs:282-307 | the loops with `break` leave the selection equal to the old selection with the matching views inserted, and all selected views are known |
| Records.Insert | App.cs:242 | ViewSet.Insert: an element already present is not added again, otherwise it goes at the end; its properties are `InsertKeeps` |
| Records.InsertKeeps | App.cs:302 | one insertion keeps the set free of repeats, leaves the earlier elements in place, and adds exactly the inserted element |
| Records.InsertAllMembers | App.cs:242 | inserting into a ViewSet yields exactly the old and the new elements, old ones in place |
| Records.InsertAllNoDup | App.cs:302 | a ViewSet never holds an element twice |
| Records.InsertAllDistinct | App.cs:242 | inserting distinct new elements appends them in order |
| TitleBlocks.CompositeNames | App.cs:394-397 | there is one displayed name per title block |
| TitleBlocks.CompositeNamesAt | App.cs:397 | the i-th displayed name is the i-th block's family name, ":", and type name |
| ViewsManager.ViewsMgr.GetTitleBlocks | App.cs:383-403 | the registry is the enumerated blocks; an empty one is a failure; otherwise the names are the composite names in order and the first block is current |
| ViewsManager.ViewsMgr.Create | App.cs:209-213 | construction fails with the title-block error exactly when there is no title block; otherwise the views, tree and registry are those loaded |
| TitleBlocks.FindBlock | App.cs:369-376 | finds the first block whose composite name equals the argument, or reports that none does |
| TitleBlocks.ListedNameIsFound | App.cs:369-376 | choosing a displayed name always finds a block with that composite name, no later than its position |
| ViewsManager.ViewsMgr.ChooseTitleBlock | App.cs:362-377 | a missing or empty name is a null-argument error and changes nothing; otherwise the first matching block becomes current, and with no match the current block stays |
| Grid.FloorSqrt | App.cs:475-477 | the integer part of the square root: r*r <= n < (r+1)*(r+1) |
| Grid.FloorSqrtOfSquare | App.cs:477 | the integer root of a perfect square r*r is exactly r, so the loop test finds no fractional part there |
| Grid.CeilSqrt | App.cs:475-482 | the row count is the least r with r*r >= amount |
| Grid.RowExamples | App.cs:475-482 | 1 item gives 1 row, 2 give 2, 5 give 3, 10 give 4 |
| ViewsManager.ViewsMgr.CalculateDistance | App.cs:469-482 | the loop raises the count to the next perfect square, stores its root (the least r with r*r at least the amount) as the row count, and returns the raised count |
| ViewsManager.ViewsMgr.PlaceViews | App.cs:410-436 | the row count becomes 1; a view that already has a viewport is refused with the error naming it and nothing changes; otherwise it is placed on the given sheet |
| Records.ViewReusedNamesView | App.cs:434-435 | the placement error's message quotes the view's name |
| ViewsManager.ViewsMgr.GenerateSheets | App.cs:333-356 | the document's new state and the outcome are those of the sheet-generation specification for the current selection, prefix and title block |
| Host.Document.CreateSheet | App.cs:349 | `ViewSheet.Create`: one unnamed sheet with the title block is appended and its index returned; viewports are unchanged |
| Host.Document.RenameSheet | App.cs:353 | setting a sheet's `Name`: only that sheet's name changes |
| Host.Document.CreateViewport | App.cs:429-435 | a viewport is refused exactly when the view already has one |
| Host.Batch | App.cs:347-355 | the per-view loop: a non-empty selection creates at least one sheet and never more than one per view, and the only failure is a placement failure |
| Host.Generate | App.cs:340-355 | sheet generation: the no-selection error is raised exactly for an empty selection, which leaves the document unchanged; otherwise at least one sheet is created |
| Host.BatchSucceeds | App.cs:347-355 | when no selected view is placed yet, each gets one new sheet in selection order, named prefix + view type + " - " + name, and is placed on it; earlier sheets and viewports are untouched |
| Host.BatchStopsAtFirstPlaced | App.cs:347-355 | when the k-th view is the first one already placed, the batch stops with the error naming it, after k + 1 sheets; only the first k views are placed |
| Host.StoppedSheets | App.cs:347-355 | the sheet half of `BatchStopsAtFirstPlaced`: the error, and one named sheet for each of the first k + 1 views (`SheetsAdded`) |
| Host.StoppedViewports | App.cs:347-355 | the viewport half of `BatchStopsAtFirstPlaced`: only the first k views are placed, each on its own new sheet (`ViewsPlaced`) |
| Host.CompletedSheets | App.cs:347-355 | the sheet half of `BatchSucceeds`: success, and one named sheet per selected view (`SheetsAdded`) |
| Host.CompletedViewports | App.cs:347-355 | the viewport half of `BatchSucceeds`: every selected view is placed on its own new sheet and earlier viewports are kept (`ViewsPlaced`) |
| Host.GenerateSucceedsIff | App.cs:333-356 | generation completes exactly when the selection is non-empty and no selected view is placed yet; every batch failure names a selected view that was already placed |

## Left out

- The ribbon setup in `App.OnStartup`, `OnShutdown` and `AssemblyDirectory`: it is UI and assembly plumbing.
- `Command.Execute`: the transaction start, commit and rollback, the task dialog, and its match on the exception message. A rolled-back transaction would discard the sheets of a failed batch. The model states the document as it is before any rollback.
- `FilteredElementCollector`, `doc.GetElement`, `ViewSheet.Create` and `Viewport.Create`: the collectors become the input sequences, and sheet and viewport creation become the `Host.Document` class.
- Every other way `Viewport.Create` can fail: the model refuses only a view that already has a viewport. Views the host lets sit on several sheets (legends) are refused like any other placed view.
- Host failures other than a refused placement are not modelled. These include `ViewSheet.Create`, the sheet `Name` setter, and the scale write in `Rescale`. In the source such a failure escapes uncaught and aborts the batch. After a failure of the `Name` setter or of the scale write, the current view's sheet already exists. `Host.Batch` fails only on a view that already has a viewport.
- The float geometry: drawable lengths, cell area and cell sizes, the orientation test, `GetOffSet`, `Rescale` and its truncation of the view scale, and the dead advance of the placement position.
- The commented-out single-sheet `GenerateSheet` and the golden-section origin: they are not part of the compiled code.
- The `null == doc` check of `GenerateSheets`: a `Document` reference here is never null.
- The root node's text "Views (all)": only its list of child categories is modelled.
- The checkbox form: `SetChecked` stands in for it. The children a leaf may gain from outside appear only as its `childCount`.
- The `AllViewsNames` and `AllTitleBlocksNames` getters: they just expose the `tree` and `titleBlockNames` fields.
- ViewSet iteration order is taken to be insertion order.
- An unset `SheetName` reads as the empty string, which is what C# string concatenation gives for null.
- ViewsManager.ViewsMgr.CalculateDistance: `amount` is an unbounded natural. The source's `amount` is a 32-bit `int`, and the model does not capture what happens at its limit. For counts above 46340 * 46340 the next perfect square exceeds `int.MaxValue`, so `amount + 1` (App.cs:479) wraps to a negative value. `Math.Sqrt` then yields NaN, the loop ends, and the source stores NaN as the row count. The only caller passes 1.
- ViewsManager.ViewsMgr.GetTitleBlocks: requires an empty registry with no current block, because its only caller is the constructor.
- ViewsManager.ViewsMgr.GenerateSheets: requires a current title block. A successfully constructed manager always has one, and `ChooseTitleBlock` never clears it.
- ViewsManager.ViewsMgr.ChooseTitleBlock: a null name and an empty name are both `None`/`""` inputs that give the same error. The source raises `ArgumentNullException` for both.
- ViewsManager.ViewsMgr.PlaceViews: the exception the source rethrows is modelled as a `Fail` outcome. An error outcome of `GenerateSheets` stands for the exception propagating out of the loop.
