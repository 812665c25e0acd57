/**
 The fold of a transcript into actions: every tool call with the outcome its result reports, whether the
 result comes after the call or before it.

 The class keeps an index from call ids to the places of their actions and updates actions in place; the
 reference is two passes over what was folded: the calls in order, and the last result of each id.
 */
module ActionFold {
  import opened Basics

  type Id = string

  /** One thing a record says: a compaction, the result of a call, or a call with its id, if it has one. */
  datatype Item = Compaction | Result(id: Id, isError: bool) | Call(call: Option<Id>)

  /** A transcript record; a side chain's records count only in its own file. */
  datatype Record = Compact(sidechain: bool) | User(sidechain: bool, results: seq<(Id, bool)>)
                  | Assistant(sidechain: bool, calls: seq<Option<Id>>) | Other

  datatype Action = Action(compact: bool, call: Option<Id>, ok: bool, isError: bool)

  function ResultItems(results: seq<(Id, bool)>): seq<Item>
  {
    seq(|results|, i requires 0 <= i < |results| => Result(results[i].0, results[i].1))
  }

  function CallItems(calls: seq<Option<Id>>): seq<Item>
  {
    seq(|calls|, i requires 0 <= i < |calls| => Call(calls[i]))
  }

  function ItemsOf(r: Record, includeSidechain: bool): seq<Item>
  {
    if r.Other? || (r.sidechain && !includeSidechain) then []
    else
      match r
      case Compact(_) => [Compaction]
      case User(_, results) => ResultItems(results)
      case Assistant(_, calls) => CallItems(calls)
  }

  function AllItems(records: seq<Record>, includeSidechain: bool): seq<Item>
  {
    if records == [] then []
    else AllItems(records[..|records| - 1], includeSidechain) + ItemsOf(records[|records| - 1], includeSidechain)
  }

  /** A record of the side chain counts only where side chains are asked for. */
  predicate Counts(r: Record, includeSidechain: bool)
  {
    match r
    case Compact(sidechain) => sidechain ==> includeSidechain
    case User(sidechain, _) => sidechain ==> includeSidechain
    case Assistant(sidechain, _) => sidechain ==> includeSidechain
    case Other => false
  }

  /** How many things a record says. */
  function Size(r: Record, includeSidechain: bool): nat
  {
    if !Counts(r, includeSidechain) then 0
    else
      match r
      case Compact(_) => 1
      case User(_, results) => |results|
      case Assistant(_, calls) => |calls|
      case Other => 0
  }

  /** The place of the first thing that record `k` says. */
  function Start(records: seq<Record>, includeSidechain: bool, k: nat): nat
    requires k <= |records|
  {
    if k == 0 then 0 else Start(records, includeSidechain, k - 1) + Size(records[k - 1], includeSidechain)
  }

  lemma {:induction false} StartOfFront(records: seq<Record>, includeSidechain: bool, k: nat)
    requires k < |records|
    ensures Start(records[..|records| - 1], includeSidechain, k) == Start(records, includeSidechain, k)
    decreases k
  {
    if k > 0 {
      StartOfFront(records, includeSidechain, k - 1);
    }
  }

  /** As many as the records that count say. */
  lemma {:induction false} ItemsInAll(records: seq<Record>, includeSidechain: bool)
    ensures |AllItems(records, includeSidechain)| == Start(records, includeSidechain, |records|)
    decreases |records|
  {
    if records != [] {
      ItemsInAll(records[..|records| - 1], includeSidechain);
      StartOfFront(records, includeSidechain, |records| - 1);
    }
  }

  /** The `j`-th thing a record says: a result with its id and outcome, a call with its id, or a compaction. */
  function Said(r: Record, j: nat): Item
    requires r.User? ==> j < |r.results|
    requires r.Assistant? ==> j < |r.calls|
  {
    match r
    case User(_, results) => Result(results[j].0, results[j].1)
    case Assistant(_, calls) => Call(calls[j])
    case _ => Compaction
  }

  lemma ItemsOfSaid(r: Record, includeSidechain: bool)
    ensures |ItemsOf(r, includeSidechain)| == Size(r, includeSidechain)
    ensures forall j | 0 <= j < Size(r, includeSidechain) :: ItemsOf(r, includeSidechain)[j] == Said(r, j)
  {
  }

  /** What is folded is exactly what the records that count say, one thing after the other. */
  lemma {:induction false} EveryItemInOrder(records: seq<Record>, includeSidechain: bool, k: nat, j: nat)
    requires k < |records| && j < Size(records[k], includeSidechain)
    ensures Start(records, includeSidechain, k) + j < |AllItems(records, includeSidechain)|
    ensures AllItems(records, includeSidechain)[Start(records, includeSidechain, k) + j] == Said(records[k], j)
    decreases |records|
  {
    var n := |records| - 1;
    var front := records[..n];
    var before, last := AllItems(front, includeSidechain), ItemsOf(records[n], includeSidechain);
    assert AllItems(records, includeSidechain) == before + last;
    StartOfFront(records, includeSidechain, k);
    if k < n {
      EveryItemInOrder(front, includeSidechain, k, j);
    } else {
      ItemsInAll(front, includeSidechain);
      ItemsOfSaid(records[n], includeSidechain);
    }
  }

  // ---------- the two passes ----------

  /** The actions without their outcomes: one a call, one a compaction, in order. */
  function Skeleton(items: seq<Item>): seq<Item>
  {
    if items == [] then []
    else
      var last := items[|items| - 1];
      Skeleton(items[..|items| - 1]) + (if last.Result? then [] else [last])
  }

  /** `part` are the calls and the compactions, all of them, in the order of what was folded. */
  ghost predicate ActionsAt(part: seq<Item>, items: seq<Item>, at: seq<nat>)
  {
    && |at| == |part|
    && (forall k, l | 0 <= k < l < |at| :: at[k] < at[l])
    && (forall i: nat :: i in at <==> i < |items| && !items[i].Result?)
    && (forall k | 0 <= k < |at| :: at[k] < |items| && part[k] == items[at[k]])
  }

  lemma ActionsSnoc(part: seq<Item>, items: seq<Item>, at: seq<nat>, x: Item, items': seq<Item>)
    requires ActionsAt(part, items, at) && items' == items + [x]
    ensures if x.Result? then ActionsAt(part, items', at) else ActionsAt(part + [x], items', at + [|items|])
  {
    var n := |items|;
    assert forall i | 0 <= i < n :: items'[i] == items[i];
    if !x.Result? {
      assert forall i: nat :: i in at + [n] <==> i in at || i == n;
    }
  }

  /** And that is what the actions are. */
  lemma {:induction false} ActionsInOrder(items: seq<Item>) returns (at: seq<nat>)
    ensures ActionsAt(Skeleton(items), items, at)
    decreases |items|
  {
    at := [];
    if items != [] {
      var n := |items| - 1;
      at := ActionsInOrder(items[..n]);
      ActionsSnoc(Skeleton(items[..n]), items[..n], at, items[n], items);
      if items[n].Result? {
        assert Skeleton(items) == Skeleton(items[..n]);
      } else {
        at := at + [n];
      }
    }
  }

  /** What the last result of this id says, anywhere. */
  function LastResult(items: seq<Item>, id: Id): Option<bool>
  {
    if items == [] then None
    else
      var last := items[|items| - 1];
      if last.Result? && last.id == id then Some(last.isError) else LastResult(items[..|items| - 1], id)
  }

  /** An empty id names no call. */
  predicate Names(item: Item, id: Id)
  {
    id != "" && item == Call(Some(id))
  }

  predicate Failed(items: seq<Item>, item: Item)
  {
    item.Call? && item.call.Some? && item.call.value != "" && LastResult(items, item.call.value) == Some(true)
  }

  function ActionOf(items: seq<Item>, item: Item): Action
  {
    Action(item.Compaction?, if item.Call? then item.call else None, !Failed(items, item), Failed(items, item))
  }

  /** The places of the calls with this id, ascending. */
  function Places(skeleton: seq<Item>, id: Id): (r: seq<nat>)
    ensures forall j | 0 <= j < |r| :: r[j] < |skeleton|
    ensures forall i: nat | i < |skeleton| :: i in r <==> Names(skeleton[i], id)
    ensures forall j, k | 0 <= j < k < |r| :: r[j] < r[k]
  {
    if skeleton == [] then []
    else
      var n := |skeleton| - 1;
      var front := skeleton[..n];
      assert forall i | 0 <= i < n :: front[i] == skeleton[i];
      var r := Places(front, id);
      assert forall i: nat | i < n :: i in r <==> Names(front[i], id);
      if Names(skeleton[n], id) then r + [n] else r
  }

  lemma SnocItem(items: seq<Item>, x: Item)
    ensures Skeleton(items + [x]) == Skeleton(items) + (if x.Result? then [] else [x])
    ensures forall id :: LastResult(items + [x], id) ==
                         if x.Result? && x.id == id then Some(x.isError) else LastResult(items, id)
  {
    assert (items + [x])[..|items|] == items;
  }

  lemma SnocPlace(skeleton: seq<Item>, x: Item, id: Id)
    ensures Places(skeleton + [x], id) == if Names(x, id) then Places(skeleton, id) + [|skeleton|] else Places(skeleton, id)
  {
    assert (skeleton + [x])[..|skeleton|] == skeleton;
  }

  // ---------- the state, part by part ----------

  ghost predicate ActionsAre(actions: seq<Action>, items: seq<Item>)
  {
    && |actions| == |Skeleton(items)|
    && forall i | 0 <= i < |actions| :: actions[i] == ActionOf(items, Skeleton(items)[i])
  }

  ghost predicate ResultsAre(resultErr: map<Id, bool>, items: seq<Item>)
  {
    && (forall id :: id in resultErr <==> LastResult(items, id).Some?)
    && (forall id | id in resultErr :: LastResult(items, id) == Some(resultErr[id]))
  }

  ghost predicate IndexIs(byId: map<Id, seq<nat>>, items: seq<Item>)
  {
    && (forall id :: id in byId <==> Places(Skeleton(items), id) != [])
    && (forall id | id in byId :: byId[id] == Places(Skeleton(items), id))
  }

  lemma OneMoreAction(actions: seq<Action>, items: seq<Item>, x: Item)
    ensures ActionsAre(actions, items) && !x.Result? ==> ActionsAre(actions + [ActionOf(items, x)], items + [x])
  {
    SnocItem(items, x);
  }

  /** A result that sets the outcome of every action of its id. */
  lemma ResultSets(actions: seq<Action>, items: seq<Item>, id: Id, isError: bool, set': seq<Action>)
    requires ActionsAre(actions, items) && |set'| == |actions|
    requires forall i | 0 <= i < |actions| ::
               set'[i] == if Names(Skeleton(items)[i], id) then actions[i].(isError := isError, ok := !isError) else actions[i]
    ensures ActionsAre(set', items + [Result(id, isError)])
  {
    SnocItem(items, Result(id, isError));
  }

  lemma SameResults(resultErr: map<Id, bool>, items: seq<Item>, x: Item)
    ensures ResultsAre(resultErr, items) ==> ResultsAre(if x.Result? then resultErr[x.id := x.isError] else resultErr, items + [x])
  {
    SnocItem(items, x);
  }

  lemma SamePlaces(items: seq<Item>, x: Item, id: Id)
    requires !Names(x, id)
    ensures Places(Skeleton(items + [x]), id) == Places(Skeleton(items), id)
  {
    SnocItem(items, x);
    SnocPlace(Skeleton(items), x, id);
    assert Skeleton(items) + [] == Skeleton(items);
  }

  lemma IndexStays(byId: map<Id, seq<nat>>, items: seq<Item>, x: Item)
    requires IndexIs(byId, items) && !(x.Call? && x.call.Some? && x.call.value != "")
    ensures IndexIs(byId, items + [x])
  {
    forall id ensures Places(Skeleton(items + [x]), id) == Places(Skeleton(items), id) {
      SamePlaces(items, x, id);
    }
  }

  lemma NewPlace(items: seq<Item>, id: Id)
    requires id != ""
    ensures Places(Skeleton(items + [Call(Some(id))]), id) == Places(Skeleton(items), id) + [|Skeleton(items)|]
  {
    SnocItem(items, Call(Some(id)));
    SnocPlace(Skeleton(items), Call(Some(id)), id);
  }

  lemma IndexGrows(byId: map<Id, seq<nat>>, items: seq<Item>, id: Id)
    requires IndexIs(byId, items) && id != ""
    ensures IndexIs(byId[id := (if id in byId then byId[id] else []) + [|Skeleton(items)|]], items + [Call(Some(id))])
  {
    var next := byId[id := (if id in byId then byId[id] else []) + [|Skeleton(items)|]];
    forall other
      ensures other in next <==> Places(Skeleton(items + [Call(Some(id))]), other) != []
      ensures other in next ==> next[other] == Places(Skeleton(items + [Call(Some(id))]), other)
    {
      if other == id {
        NewPlace(items, id);
      } else {
        SamePlaces(items, Call(Some(id)), other);
      }
    }
  }

  // ---------- the fold ----------

  lemma OneMoreRecord(records: seq<Record>, i: nat, includeSidechain: bool)
    requires i < |records|
    ensures AllItems(records[..i + 1], includeSidechain) == AllItems(records[..i], includeSidechain) + ItemsOf(records[i], includeSidechain)
  {
    assert records[..i + 1][..i] == records[..i];
  }

  lemma {:induction false} SkeletonHasNoResults(items: seq<Item>, i: nat)
    requires i < |Skeleton(items)|
    ensures !Skeleton(items)[i].Result?
    decreases |items|
  {
    if i < |Skeleton(items[..|items| - 1])| {
      SkeletonHasNoResults(items[..|items| - 1], i);
    }
  }

  class ActionFacts {
    var actions: seq<Action>
    var resultErr: map<Id, bool>
    var byId: map<Id, seq<nat>>

    /** The state is what two passes over `items` give. */
    ghost predicate Holds(items: seq<Item>)
      reads this
    {
      ActionsAre(actions, items) && ResultsAre(resultErr, items) && IndexIs(byId, items)
    }

    constructor ()
      ensures Holds([])
    {
      actions, resultErr, byId := [], map[], map[];
    }

    method AddCompaction(ghost items: seq<Item>)
      requires Holds(items)
      modifies this
      ensures Holds(items + [Compaction])
    {
      OneMoreAction(actions, items, Compaction);
      SameResults(resultErr, items, Compaction);
      IndexStays(byId, items, Compaction);
      actions := actions + [Action(true, None, true, false)];
    }

    /** One call: its outcome so far, and its place in the index when it has an id. */
    method AddCall(id: Option<Id>, ghost items: seq<Item>)
      requires Holds(items)
      modifies this
      ensures Holds(items + [Call(id)])
    {
      OneMoreAction(actions, items, Call(id));
      SameResults(resultErr, items, Call(id));
      var named := id.Some? && id.value != "";
      if named {
        IndexGrows(byId, items, id.value);
        byId := byId[id.value := (if id.value in byId then byId[id.value] else []) + [|actions|]];
      } else {
        IndexStays(byId, items, Call(id));
      }
      var failed := named && id.value in resultErr && resultErr[id.value];
      assert failed <==> Failed(items, Call(id));
      actions := actions + [Action(false, id, !failed, failed)];
    }

    /** Set the outcome of the actions at these places. */
    method Mark(places: seq<nat>, isError: bool)
      requires forall i | i in places :: i < |actions|
      modifies this`actions
      ensures |actions| == |old(actions)|
      ensures forall i: nat | i < |actions| ::
                actions[i] == if i in places then old(actions)[i].(isError := isError, ok := !isError) else old(actions)[i]
    {
      var k := 0;
      while k < |places|
        invariant 0 <= k <= |places| && |actions| == |old(actions)|
        invariant forall i: nat | i < |actions| ::
                    actions[i] == if i in places[..k] then old(actions)[i].(isError := isError, ok := !isError) else old(actions)[i]
      {
        assert places[k] in places;
        assert places[..k + 1] == places[..k] + [places[k]];
        actions := actions[places[k] := actions[places[k]].(isError := isError, ok := !isError)];
        k := k + 1;
      }
      assert places[..k] == places;
    }

    /** One result: remembered for calls to come, and set on every action that has its id already. */
    method AddResult(id: Id, isError: bool, ghost items: seq<Item>)
      requires Holds(items)
      modifies this
      ensures Holds(items + [Result(id, isError)])
    {
      SameResults(resultErr, items, Result(id, isError));
      IndexStays(byId, items, Result(id, isError));
      resultErr := resultErr[id := isError];
      var places := if id in byId then byId[id] else [];
      assert places == Places(Skeleton(items), id);
      ghost var before := actions;
      Mark(places, isError);
      ResultSets(before, items, id, isError, actions);
    }

    method AddResults(results: seq<(Id, bool)>, ghost items: seq<Item>)
      requires Holds(items)
      modifies this
      ensures Holds(items + ResultItems(results))
    {
      ghost var all := ResultItems(results);
      assert items + all[..0] == items;
      var i := 0;
      while i < |results|
        invariant 0 <= i <= |results|
        invariant Holds(items + all[..i])
      {
        assert items + all[..i + 1] == items + all[..i] + [all[i]];
        AddResult(results[i].0, results[i].1, items + all[..i]);
        i := i + 1;
      }
      assert all[..i] == all;
    }

    method AddCalls(calls: seq<Option<Id>>, ghost items: seq<Item>)
      requires Holds(items)
      modifies this
      ensures Holds(items + CallItems(calls))
    {
      ghost var all := CallItems(calls);
      assert items + all[..0] == items;
      var i := 0;
      while i < |calls|
        invariant 0 <= i <= |calls|
        invariant Holds(items + all[..i])
      {
        assert items + all[..i + 1] == items + all[..i] + [all[i]];
        AddCall(calls[i], items + all[..i]);
        i := i + 1;
      }
      assert all[..i] == all;
    }

    /** One record of a transcript. */
    method Fold(r: Record, includeSidechain: bool, ghost items: seq<Item>)
      requires Holds(items)
      modifies this
      ensures Holds(items + ItemsOf(r, includeSidechain))
    {
      assert items + [] == items;
      if r.Other? || (r.sidechain && !includeSidechain) {
        return;
      }
      match r {
        case Compact(_) => AddCompaction(items);
        case User(_, results) => AddResults(results, items);
        case Assistant(_, calls) => AddCalls(calls, items);
      }
    }

    /** Any records, in one go or from where an earlier fold stopped. */
    method FoldAll(records: seq<Record>, includeSidechain: bool, from: nat)
      requires from <= |records| && Holds(AllItems(records[..from], includeSidechain))
      modifies this
      ensures Holds(AllItems(records, includeSidechain))
    {
      var i := from;
      while i < |records|
        invariant from <= i <= |records|
        invariant Holds(AllItems(records[..i], includeSidechain))
      {
        OneMoreRecord(records, i, includeSidechain);
        Fold(records[i], includeSidechain, AllItems(records[..i], includeSidechain));
        i := i + 1;
      }
      assert records[..i] == records;
    }

    /**
     What the two passes mean: the index lists exactly the actions that carry each nonempty id; an action
     has failed exactly when the last result for its id, before the call or after it, is an error.
     */
    lemma Correlated(items: seq<Item>, i: nat, id: Id)
      requires Holds(items) && i < |actions|
      ensures (id in byId && i in byId[id]) <==> id != "" && actions[i].call == Some(id)
      ensures id != "" && actions[i].call == Some(id) ==> (actions[i].isError <==> LastResult(items, id) == Some(true))
      ensures actions[i].ok == !actions[i].isError && |actions| == |Skeleton(items)|
      ensures actions[i].compact <==> Skeleton(items)[i] == Compaction
      ensures !actions[i].compact ==> Skeleton(items)[i] == Call(actions[i].call)
      ensures actions[i].call.None? || actions[i].call == Some("") ==> !actions[i].isError
    {
      assert i in Places(Skeleton(items), id) <==> Names(Skeleton(items)[i], id);
      SkeletonHasNoResults(items, i);
    }
  }

  /** A result of this id that no other result of the id comes after. */
  ghost predicate IsLastAt(items: seq<Item>, id: Id, isError: bool, i: nat)
  {
    && i < |items| && items[i] == Result(id, isError)
    && forall j | i < j < |items| :: !(items[j].Result? && items[j].id == id)
  }

  lemma LastAtFront(items: seq<Item>, id: Id, isError: bool, i: nat)
    requires items != [] && !(items[|items| - 1].Result? && items[|items| - 1].id == id)
    ensures IsLastAt(items, id, isError, i) <==> IsLastAt(items[..|items| - 1], id, isError, i)
  {
    var front := items[..|items| - 1];
    assert forall j | 0 <= j < |front| :: front[j] == items[j];
  }

  /** The last result, said without a pass over the items. */
  lemma {:induction false} LastResultIsLast(items: seq<Item>, id: Id, isError: bool)
    ensures LastResult(items, id) == Some(isError) <==> exists i :: IsLastAt(items, id, isError, i)
    decreases |items|
  {
    if items != [] {
      var n := |items| - 1;
      var front, last := items[..n], items[n];
      LastResultIsLast(front, id, isError);
      if last.Result? && last.id == id {
        assert LastResult(items, id) == Some(isError) ==> IsLastAt(items, id, isError, n);
      } else {
        forall i: nat ensures IsLastAt(items, id, isError, i) <==> IsLastAt(front, id, isError, i) {
          LastAtFront(items, id, isError, i);
        }
      }
    }
  }
}
