/**
 * The title-block registry: composite `family:type` names and lookup by name.
 */
module TitleBlocks {
  import opened Records

  /** The name the registry shows and looks a title block up by. */
  function CompositeName(b: TitleBlock): string {
    b.familyName + ":" + b.typeName
  }

  /** The displayed names, one per block, in enumeration order. */
  function CompositeNames(bs: seq<TitleBlock>): (r: seq<string>)
    ensures |r| == |bs|
    decreases |bs|
  {
    if bs == [] then [] else CompositeNames(bs[..|bs| - 1]) + [CompositeName(bs[|bs| - 1])]
  }

  /** The i-th displayed name is the composite name of the i-th block. */
  lemma {:induction false} CompositeNamesAt(bs: seq<TitleBlock>, i: nat)
    requires i < |bs|
    ensures CompositeNames(bs)[i] == bs[i].familyName + ":" + bs[i].typeName
    decreases |bs|
  {
    if i < |bs| - 1 {
      CompositeNamesAt(bs[..|bs| - 1], i);
    }
  }

  /** The index of the first block whose composite name equals `name`. */
  function FindBlock(bs: seq<TitleBlock>, name: string): (r: Option<nat>)
    ensures r.Some? ==> r.value < |bs| && CompositeName(bs[r.value]) == name
    ensures r.Some? ==> forall j :: 0 <= j < r.value ==> CompositeName(bs[j]) != name
    ensures r.None? <==> forall j :: 0 <= j < |bs| ==> CompositeName(bs[j]) != name
    decreases |bs|
  {
    if bs == [] then None
    else if CompositeName(bs[0]) == name then Some(0)
    else match FindBlock(bs[1..], name)
      case None => None
      case Some(i) => Some(i + 1)
  }

  /** Choosing a name taken from the displayed list always finds a block,
      at that position or at an earlier block with the same composite name. */
  lemma ListedNameIsFound(bs: seq<TitleBlock>, i: nat)
    requires i < |bs|
    ensures FindBlock(bs, CompositeNames(bs)[i]).Some?
    ensures FindBlock(bs, CompositeNames(bs)[i]).value <= i
    ensures CompositeName(bs[FindBlock(bs, CompositeNames(bs)[i]).value]) == CompositeName(bs[i])
  {
    CompositeNamesAt(bs, i);
  }
}
