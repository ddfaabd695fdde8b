/**
 * The host document, reduced to what sheet generation does with it: it
 * creates sheets from a title block, renames them, and binds a view to a
 * sheet with a viewport, refusing a view that already has one.
 */
module Host {
  import opened Records

  datatype Sheet = Sheet(titleBlock: TitleBlock, name: string)

  /** The document's sheets, and for each view that has a viewport the
      index of the sheet it is placed on. */
  datatype HostState = HostState(sheets: seq<Sheet>, viewports: map<View, nat>)

  class Document {
    var sheets: seq<Sheet>
    var viewports: map<View, nat>

    constructor (sheets: seq<Sheet>, viewports: map<View, nat>)
      ensures this.sheets == sheets && this.viewports == viewports
    {
      this.sheets := sheets;
      this.viewports := viewports;
    }

    function State(): HostState
      reads this
    {
      HostState(sheets, viewports)
    }

    /** ViewSheet.Create: a new, unnamed sheet at the end. */
    method CreateSheet(tb: TitleBlock) returns (id: nat)
      modifies this
      ensures sheets == old(sheets) + [Sheet(tb, "")] && id == |old(sheets)|
      ensures viewports == old(viewports)
    {
      id := |sheets|;
      sheets := sheets + [Sheet(tb, "")];
    }

    /** Setting a sheet's Name. */
    method RenameSheet(id: nat, name: string)
      requires id < |sheets|
      modifies this
      ensures sheets == old(sheets)[id := old(sheets)[id].(name := name)]
      ensures viewports == old(viewports)
    {
      sheets := sheets[id := sheets[id].(name := name)];
    }

    /** Viewport.Create: refused (ok == false, nothing changes) when the
        view is already placed on a sheet. */
    method CreateViewport(sheet: nat, v: View) returns (ok: bool)
      modifies this
      ensures ok == (v !in old(viewports))
      ensures viewports == if ok then old(viewports)[v := sheet] else old(viewports)
      ensures sheets == old(sheets)
    {
      ok := v !in viewports;
      if ok {
        viewports := viewports[v := sheet];
      }
    }
  }

  /** The name given to the sheet of a view. */
  function SheetTitle(prefix: string, v: View): string {
    prefix + v.viewType + " - " + v.name
  }

  datatype Run = Run(state: HostState, outcome: Outcome<Error>)

  /** The state after a view is given a new, named sheet and placed on it. */
  function Placed(h: HostState, v: View, prefix: string, tb: TitleBlock): HostState {
    HostState(h.sheets + [Sheet(tb, SheetTitle(prefix, v))], h.viewports[v := |h.sheets|])
  }

  /** The per-view loop of sheet generation: for each view a sheet is
      created and named, then the view is placed on it; the first refused
      placement ends the batch, leaving that view's sheet in place. */
  function Batch(h: HostState, sel: seq<View>, prefix: string, tb: TitleBlock): (r: Run)
    ensures |h.sheets| + (if sel == [] then 0 else 1) <= |r.state.sheets| <= |h.sheets| + |sel|
    ensures r.outcome.Fail? ==> r.outcome.error.ViewReused?
    decreases |sel|
  {
    if sel == [] then Run(h, Pass)
    else
      var v := sel[0];
      if v in h.viewports then Run(h.(sheets := h.sheets + [Sheet(tb, SheetTitle(prefix, v))]), Fail(ViewReused(v.name)))
      else Batch(Placed(h, v, prefix, tb), sel[1..], prefix, tb)
  }

  /** Sheet generation as a whole: an empty selection is refused before
      anything is created. */
  function Generate(h: HostState, sel: seq<View>, prefix: string, tb: TitleBlock): (r: Run)
    ensures r.outcome == Fail(NoViewSelected) <==> sel == []
    ensures sel == [] ==> r.state == h
    ensures sel != [] ==> |r.state.sheets| > |h.sheets|
  {
    if |sel| == 0 then Run(h, Fail(NoViewSelected)) else Batch(h, sel, prefix, tb)
  }

  /** `r` is `h` with one new sheet for each of the first `n` views of `vs`,
      in order, named from the prefix, the view type and the view name. */
  ghost predicate SheetsAdded(h: HostState, r: HostState, vs: seq<View>, n: nat, prefix: string, tb: TitleBlock) {
    && n <= |vs|
    && |r.sheets| == |h.sheets| + n
    && r.sheets[..|h.sheets|] == h.sheets
    && forall i :: 0 <= i < n ==> r.sheets[|h.sheets| + i] == Sheet(tb, SheetTitle(prefix, vs[i]))
  }

  /** In `r` each of the first `n` views of `vs` is placed on the i-th new
      sheet, the viewports of `h` are kept, and no other view is placed. */
  ghost predicate ViewsPlaced(h: HostState, r: HostState, vs: seq<View>, n: nat) {
    && n <= |vs|
    && (forall i :: 0 <= i < n ==> vs[i] in r.viewports && r.viewports[vs[i]] == |h.sheets| + i)
    && (forall v :: v in h.viewports ==> v in r.viewports && r.viewports[v] == h.viewports[v])
    && (forall v :: v in r.viewports ==> v in h.viewports || v in vs[..n])
  }

  /** When no selected view is placed yet, every view gets its own new sheet,
      in selection order, named from the prefix, its view type and its name;
      earlier sheets and viewports are untouched. */
  lemma BatchSucceeds(h: HostState, sel: seq<View>, prefix: string, tb: TitleBlock)
    requires NoDup(sel)
    requires forall v :: v in sel ==> v !in h.viewports
    ensures var r := Batch(h, sel, prefix, tb);
      && r.outcome == Pass
      && SheetsAdded(h, r.state, sel, |sel|, prefix, tb)
      && ViewsPlaced(h, r.state, sel, |sel|)
  {
    CompletedSheets(h, sel, prefix, tb);
    CompletedViewports(h, sel, prefix, tb);
  }

  /** The outcome and the sheets of a batch where no view is placed yet. */
  lemma {:induction false} CompletedSheets(h: HostState, sel: seq<View>, prefix: string, tb: TitleBlock)
    requires NoDup(sel)
    requires forall v :: v in sel ==> v !in h.viewports
    ensures var r := Batch(h, sel, prefix, tb);
      r.outcome == Pass && SheetsAdded(h, r.state, sel, |sel|, prefix, tb)
    decreases |sel|
  {
    if sel != [] {
      var next := Placed(h, sel[0], prefix, tb);
      var rest := sel[1..];
      NoDupTail(sel);
      forall u | u in rest ensures u !in next.viewports {
        var k :| 0 <= k < |rest| && rest[k] == u;
        assert sel[k + 1] == u;
      }
      CompletedSheets(next, rest, prefix, tb);
      var r := Batch(h, sel, prefix, tb);
      assert r == Batch(next, rest, prefix, tb);
      assert r.state.sheets[..|h.sheets|] == h.sheets by {
        assert r.state.sheets[..|next.sheets|] == next.sheets;
      }
      forall i | 0 <= i < |sel|
        ensures r.state.sheets[|h.sheets| + i] == Sheet(tb, SheetTitle(prefix, sel[i]))
      {
        if i == 0 {
          assert r.state.sheets[|h.sheets|] == r.state.sheets[..|next.sheets|][|h.sheets|];
        } else {
          assert sel[i] == rest[i - 1];
        }
      }
    }
  }

  /** The viewports of a batch where no view is placed yet. */
  lemma {:induction false} CompletedViewports(h: HostState, sel: seq<View>, prefix: string, tb: TitleBlock)
    requires NoDup(sel)
    requires forall v :: v in sel ==> v !in h.viewports
    ensures ViewsPlaced(h, Batch(h, sel, prefix, tb).state, sel, |sel|)
    decreases |sel|
  {
    if sel != [] {
      var next := Placed(h, sel[0], prefix, tb);
      var rest := sel[1..];
      NoDupTail(sel);
      forall u | u in rest ensures u !in next.viewports {
        var k :| 0 <= k < |rest| && rest[k] == u;
        assert sel[k + 1] == u;
      }
      CompletedViewports(next, rest, prefix, tb);
      var r := Batch(h, sel, prefix, tb);
      assert r == Batch(next, rest, prefix, tb);
      forall i | 0 < i < |sel|
        ensures sel[i] in r.state.viewports && r.state.viewports[sel[i]] == |h.sheets| + i
      {
        assert sel[i] == rest[i - 1];
      }
      forall u | u in r.state.viewports ensures u in h.viewports || u in sel {
        if u !in next.viewports {
          assert u in rest;
        }
      }
    }
  }

  /** When the k-th selected view is the first one already placed, the batch
      stops there with an error naming that view: k + 1 sheets are created
      (the last one without a viewport) and only the first k views are
      placed. */
  lemma BatchStopsAtFirstPlaced(h: HostState, sel: seq<View>, prefix: string, tb: TitleBlock, k: nat)
    requires NoDup(sel)
    requires k < |sel| && sel[k] in h.viewports
    requires forall j :: 0 <= j < k ==> sel[j] !in h.viewports
    ensures var r := Batch(h, sel, prefix, tb);
      && r.outcome == Fail(ViewReused(sel[k].name))
      && SheetsAdded(h, r.state, sel, k + 1, prefix, tb)
      && ViewsPlaced(h, r.state, sel, k)
  {
    StoppedSheets(h, sel, prefix, tb, k);
    StoppedViewports(h, sel, prefix, tb, k);
  }

  /** The outcome and the sheets of a batch that stops at the k-th view. */
  lemma {:induction false} StoppedSheets(h: HostState, sel: seq<View>, prefix: string, tb: TitleBlock, k: nat)
    requires NoDup(sel)
    requires k < |sel| && sel[k] in h.viewports
    requires forall j :: 0 <= j < k ==> sel[j] !in h.viewports
    ensures var r := Batch(h, sel, prefix, tb);
      r.outcome == Fail(ViewReused(sel[k].name)) && SheetsAdded(h, r.state, sel, k + 1, prefix, tb)
    decreases k
  {
    if k > 0 {
      var next := Placed(h, sel[0], prefix, tb);
      var rest := sel[1..];
      NoDupTail(sel);
      assert rest[k - 1] == sel[k];
      forall j | 0 <= j < k - 1 ensures rest[j] !in next.viewports {
        assert rest[j] == sel[j + 1];
      }
      StoppedSheets(next, rest, prefix, tb, k - 1);
      var r := Batch(h, sel, prefix, tb);
      assert r == Batch(next, rest, prefix, tb);
      assert r.state.sheets[..|h.sheets|] == h.sheets by {
        assert r.state.sheets[..|next.sheets|] == next.sheets;
      }
      forall i | 0 <= i <= k
        ensures r.state.sheets[|h.sheets| + i] == Sheet(tb, SheetTitle(prefix, sel[i]))
      {
        if i == 0 {
          assert r.state.sheets[|h.sheets|] == r.state.sheets[..|next.sheets|][|h.sheets|];
        } else {
          assert sel[i] == rest[i - 1];
        }
      }
    }
  }

  /** The viewports of a batch that stops at the k-th view. */
  lemma {:induction false} StoppedViewports(h: HostState, sel: seq<View>, prefix: string, tb: TitleBlock, k: nat)
    requires NoDup(sel)
    requires k < |sel| && sel[k] in h.viewports
    requires forall j :: 0 <= j < k ==> sel[j] !in h.viewports
    ensures ViewsPlaced(h, Batch(h, sel, prefix, tb).state, sel, k)
    decreases k
  {
    if k > 0 {
      var v := sel[0];
      var next := Placed(h, v, prefix, tb);
      var rest := sel[1..];
      NoDupTail(sel);
      assert rest[k - 1] == sel[k];
      forall j | 0 <= j < k - 1 ensures rest[j] !in next.viewports {
        assert rest[j] == sel[j + 1];
      }
      StoppedViewports(next, rest, prefix, tb, k - 1);
      var r := Batch(h, sel, prefix, tb);
      assert r == Batch(next, rest, prefix, tb);
      forall i | 0 < i < k
        ensures sel[i] in r.state.viewports && r.state.viewports[sel[i]] == |h.sheets| + i
      {
        assert sel[i] == rest[i - 1];
      }
      forall u | u in r.state.viewports ensures u in h.viewports || u in sel[..k] {
        if u !in next.viewports {
          var j :| 0 <= j < k - 1 && rest[j] == u;
          assert sel[..k][j + 1] == u;
        } else if u !in h.viewports {
          assert u == sel[..k][0];
        }
      }
    }
  }

  /** Generation completes exactly when the selection is non-empty and no
      selected view is placed yet; any batch failure is a placement failure
      naming a selected view. */
  lemma {:induction false} GenerateSucceedsIff(h: HostState, sel: seq<View>, prefix: string, tb: TitleBlock)
    requires NoDup(sel)
    ensures Generate(h, sel, prefix, tb).outcome == Pass <==> |sel| > 0 && forall v :: v in sel ==> v !in h.viewports
    ensures |sel| > 0 && Generate(h, sel, prefix, tb).outcome.Fail? ==>
      exists v :: v in sel && v in h.viewports && Generate(h, sel, prefix, tb).outcome.error == ViewReused(v.name)
  {
    if |sel| > 0 {
      BatchOutcome(h, sel, prefix, tb);
    }
  }

  lemma {:induction false} BatchOutcome(h: HostState, sel: seq<View>, prefix: string, tb: TitleBlock)
    requires NoDup(sel)
    ensures Batch(h, sel, prefix, tb).outcome == Pass <==> forall v :: v in sel ==> v !in h.viewports
    ensures Batch(h, sel, prefix, tb).outcome.Fail? ==>
      exists v :: v in sel && v in h.viewports && Batch(h, sel, prefix, tb).outcome.error == ViewReused(v.name)
    decreases |sel|
  {
    if sel != [] && sel[0] !in h.viewports {
      var v := sel[0];
      var next := Placed(h, v, prefix, tb);
      var rest := sel[1..];
      NoDupTail(sel);
      BatchOutcome(next, rest, prefix, tb);
      assert Batch(h, sel, prefix, tb) == Batch(next, rest, prefix, tb);
      assert sel == [v] + rest;
    }
  }
}
