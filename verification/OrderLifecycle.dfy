/** The order manager. Every section that runs under the manager's lock is one atomic step, and an
    execution goroutine takes its two locked steps and then publishes, at any time. */
module OrderLifecycle {

  type Id = nat

  datatype Status = Unset | Pending | Open | Filled | Cancelled

  /** How far the goroutine that executes an order has come. */
  datatype Stage = Spawned | Sleeping | Publishing | Done

  datatype OrderView = OrderView(quantity: real, price: real, status: Status, filledQuantity: real, avgFillPrice: real)

  datatype Error = NotFound | AlreadyFilled | AlreadyCancelled

  datatype Outcome = Ok | Err(error: Error)

  datatype State = State(
    orders: map<Id, OrderView>, pending: set<Id>, completed: set<Id>, cancelled: set<Id>,
    stage: map<Id, Stage>, published: seq<Id>)

  const EMPTY := State(map[], {}, {}, {}, map[], [])

  datatype Action =
    | Place(id: Id, order: OrderView)
    | Begin(id: Id)
    | Finish(id: Id)
    | Publish(id: Id)
    | Cancel(id: Id)

  ghost predicate Enabled(s: State, a: Action) {
    match a
    case Place(id, _) => id !in s.orders
    case Begin(id) => id in s.stage && id in s.orders && s.stage[id] == Spawned
    case Finish(id) => id in s.stage && id in s.orders && s.stage[id] == Sleeping
    case Publish(id) => id in s.stage && id in s.orders && s.stage[id] == Publishing
    case Cancel(_) => true
  }

  ghost function CancelOutcome(s: State, id: Id): Outcome {
    if id !in s.orders then Err(NotFound)
    else if s.orders[id].status == Filled then Err(AlreadyFilled)
    else if s.orders[id].status == Cancelled then Err(AlreadyCancelled)
    else Ok
  }

  ghost function Step(s: State, a: Action): State
    requires Enabled(s, a)
  {
    match a
    case Place(id, order) =>
      s.(orders := s.orders[id := order.(status := Pending)], pending := s.pending + {id},
         stage := s.stage[id := Spawned])
    case Begin(id) =>
      s.(orders := s.orders[id := s.orders[id].(status := Open)], pending := s.pending - {id},
         stage := s.stage[id := Sleeping])
    case Finish(id) =>
      var o := s.orders[id];
      s.(orders := s.orders[id := o.(status := Filled, filledQuantity := o.quantity, avgFillPrice := o.price)],
         completed := s.completed + {id}, stage := s.stage[id := Publishing])
    case Publish(id) =>
      s.(published := s.published + [id], stage := s.stage[id := Done])
    case Cancel(id) =>
      if CancelOutcome(s, id) != Ok then s
      else s.(orders := s.orders[id := s.orders[id].(status := Cancelled)], pending := s.pending - {id},
              cancelled := s.cancelled + {id})
  }

  // ----- the manager -----

  class Order {
    var id: Id
    const quantity: real
    const price: real
    var status: Status
    var filledQuantity: real
    var avgFillPrice: real

    ghost function View(): OrderView
      reads this
    {
      OrderView(quantity, price, status, filledQuantity, avgFillPrice)
    }

    constructor (id: Id, quantity: real, price: real)
      ensures this.id == id && View() == OrderView(quantity, price, Unset, 0.0, 0.0)
    {
      this.id, this.quantity, this.price := id, quantity, price;
      status, filledQuantity, avgFillPrice := Unset, 0.0, 0.0;
    }
  }

  class Manager {
    var orders: map<Id, Order>
    // the ids under which the three status maps hold the same order objects
    var pending: set<Id>
    var completed: set<Id>
    var cancelled: set<Id>
    ghost var filed: set<Order>
    ghost var stage: map<Id, Stage>
    ghost var published: seq<Id>

    /** Each order is filed under its own id. */
    ghost predicate Valid()
      reads this, filed
    {
      forall i :: i in orders ==> orders[i] in filed && orders[i].id == i
    }

    /** The manager is in state `s`. */
    ghost predicate Shows(s: State)
      reads this, filed
    {
      && Valid()
      && s.orders.Keys == orders.Keys && (forall i :: i in orders ==> orders[i].View() == s.orders[i])
      && s.pending == pending && s.completed == completed && s.cancelled == cancelled
      && s.stage == stage && s.published == published
    }

    constructor ()
      ensures Shows(EMPTY)
    {
      orders, pending, completed, cancelled := map[], {}, {}, {};
      stage, published, filed := map[], [], {};
    }

    /** The caller's order must carry an id that no order of the manager has. */
    method PlaceOrder(order: Order, ghost s: State)
      requires Shows(s) && Enabled(s, Place(order.id, order.View())) && order !in filed
      modifies this, order`status
      ensures Shows(Step(s, Place(order.id, old(order.View()))))
    {
      order.status := Pending;
      orders := orders[order.id := order];
      pending := pending + {order.id};
      stage := stage[order.id := Spawned];
      filed := filed + {order};
    }

    /** The first locked section of `executeOrder`. */
    method ExecuteBegin(order: Order, ghost s: State)
      requires Shows(s) && Enabled(s, Begin(order.id)) && orders[order.id] == order
      modifies this`pending, this`stage, order`status
      ensures Shows(Step(s, Begin(order.id)))
    {
      pending := pending - {order.id};
      order.status := Open;
      stage := stage[order.id := Sleeping];
    }

    /** The second locked section of `executeOrder`. */
    method ExecuteFinish(order: Order, ghost s: State)
      requires Shows(s) && Enabled(s, Finish(order.id)) && orders[order.id] == order
      modifies this`completed, this`stage, order`status, order`filledQuantity, order`avgFillPrice
      ensures Shows(Step(s, Finish(order.id)))
    {
      order.status := Filled;
      order.filledQuantity := order.quantity;
      order.avgFillPrice := order.price;
      completed := completed + {order.id};
      stage := stage[order.id := Publishing];
    }

    /** The fill event that `executeOrder` publishes after its last locked section. */
    ghost method PublishFill(order: Order, s: State)
      requires Shows(s) && Enabled(s, Publish(order.id)) && orders[order.id] == order
      modifies this`stage, this`published
      ensures Shows(Step(s, Publish(order.id)))
    {
      published := published + [order.id];
      stage := stage[order.id := Done];
    }

    method CancelOrder(id: Id, ghost s: State) returns (r: Outcome)
      requires Shows(s)
      modifies this`pending, this`cancelled, filed`status
      ensures r == CancelOutcome(s, id) && Shows(Step(s, Cancel(id)))
    {
      if id !in orders {
        return Err(NotFound);
      }
      var order := orders[id];
      if order.status == Filled {
        return Err(AlreadyFilled);
      }
      if order.status == Cancelled {
        return Err(AlreadyCancelled);
      }
      pending := pending - {id};
      order.status := Cancelled;
      cancelled := cancelled + {id};
      return Ok;
    }
  }

  // ----- every interleaving -----

  /** `s` is reached from the empty manager by the enabled actions, in this order. */
  ghost predicate Reaches(actions: seq<Action>, s: State) {
    if actions == [] then s == EMPTY
    else
      var n := |actions| - 1;
      exists t :: Reaches(actions[..n], t) && Enabled(t, actions[n]) && s == Step(t, actions[n])
  }

  ghost predicate StageFits(status: Status, stage: Stage) {
    match status
    case Unset => false
    case Pending => stage == Spawned
    case Open => stage == Sleeping
    case Filled => stage == Publishing || stage == Done
    case Cancelled => stage == Spawned || stage == Sleeping
  }

  ghost predicate NoRepeats(ids: seq<Id>) {
    forall i, j :: 0 <= i < j < |ids| ==> ids[i] != ids[j]
  }

  ghost predicate Inv(s: State) {
    && s.stage.Keys == s.orders.Keys
    && (forall id :: id in s.pending <==> id in s.orders && s.orders[id].status == Pending)
    && (forall id :: id in s.completed <==> id in s.orders && s.orders[id].status == Filled)
    && (forall id :: id in s.orders ==> StageFits(s.orders[id].status, s.stage[id]))
    && (forall id :: id in s.orders && s.orders[id].status == Cancelled ==> id in s.cancelled)
    && (forall id :: id in s.orders && s.orders[id].status == Filled ==>
          s.orders[id].filledQuantity == s.orders[id].quantity && s.orders[id].avgFillPrice == s.orders[id].price)
    && (forall id :: id in s.published <==> id in s.stage && s.stage[id] == Done)
    && NoRepeats(s.published)
  }

  /** An order keeps its quantity, and once it is filled nothing about it changes. */
  ghost predicate Preserves(s: State, t: State) {
    forall id :: id in s.orders ==>
      && id in t.orders && t.orders[id].quantity == s.orders[id].quantity
      && (s.orders[id].status == Filled ==> t.orders[id] == s.orders[id])
  }

  lemma PlaceKeepsInv(s: State, id: Id, order: OrderView)
    requires Inv(s) && Enabled(s, Place(id, order))
    ensures Inv(Step(s, Place(id, order))) && Preserves(s, Step(s, Place(id, order)))
  {
  }

  lemma BeginKeepsInv(s: State, id: Id)
    requires Inv(s) && Enabled(s, Begin(id))
    ensures Inv(Step(s, Begin(id))) && Preserves(s, Step(s, Begin(id)))
  {
  }

  lemma FinishKeepsInv(s: State, id: Id)
    requires Inv(s) && Enabled(s, Finish(id))
    ensures Inv(Step(s, Finish(id))) && Preserves(s, Step(s, Finish(id)))
  {
  }

  lemma PublishKeepsInv(s: State, id: Id)
    requires Inv(s) && Enabled(s, Publish(id))
    ensures Inv(Step(s, Publish(id))) && Preserves(s, Step(s, Publish(id)))
  {
  }

  lemma CancelKeepsInv(s: State, id: Id)
    requires Inv(s)
    ensures Inv(Step(s, Cancel(id))) && Preserves(s, Step(s, Cancel(id)))
  {
  }

  lemma StepKeepsInv(s: State, a: Action)
    requires Inv(s) && Enabled(s, a)
    ensures Inv(Step(s, a)) && Preserves(s, Step(s, a))
  {
    match a
    case Place(id, order) => PlaceKeepsInv(s, id, order);
    case Begin(id) => BeginKeepsInv(s, id);
    case Finish(id) => FinishKeepsInv(s, id);
    case Publish(id) => PublishKeepsInv(s, id);
    case Cancel(id) => CancelKeepsInv(s, id);
  }

  /** In every reachable state: `pending` holds exactly the pending orders, `completed` exactly the
      filled ones, filled orders are filled in full, and no order publishes more than one fill. */
  lemma {:induction false} EveryRunKeepsInv(actions: seq<Action>, s: State)
    requires Reaches(actions, s)
    ensures Inv(s)
  {
    if actions != [] {
      var n := |actions| - 1;
      var t :| Reaches(actions[..n], t) && Enabled(t, actions[n]) && s == Step(t, actions[n]);
      EveryRunKeepsInv(actions[..n], t);
      StepKeepsInv(t, actions[n]);
    }
  }

  ghost predicate RunsTo(s: State, more: seq<Action>, t: State)
    decreases more
  {
    if more == [] then s == t
    else Enabled(s, more[0]) && RunsTo(Step(s, more[0]), more[1..], t)
  }

  lemma {:induction false} FilledFromInv(s: State, more: seq<Action>, t: State, id: Id)
    requires Inv(s) && RunsTo(s, more, t) && id in s.orders && s.orders[id].status == Filled
    ensures id in t.orders && t.orders[id] == s.orders[id]
    decreases more
  {
    if more != [] {
      StepKeepsInv(s, more[0]);
      FilledFromInv(Step(s, more[0]), more[1..], t, id);
    }
  }

  /** Filled is never left, whatever happens next. */
  lemma {:induction false} FilledForever(before: seq<Action>, more: seq<Action>, s: State, t: State, id: Id)
    requires Reaches(before, s) && RunsTo(s, more, t)
    requires id in s.orders && s.orders[id].status == Filled
    ensures id in t.orders && t.orders[id] == s.orders[id]
  {
    EveryRunKeepsInv(before, s);
    FilledFromInv(s, more, t, id);
  }

  lemma {:induction false} FinishedIff(actions: seq<Action>, s: State, id: Id)
    requires Reaches(actions, s)
    ensures Finish(id) in actions <==> id in s.stage && (s.stage[id] == Publishing || s.stage[id] == Done)
  {
    if actions != [] {
      var n := |actions| - 1;
      var t :| Reaches(actions[..n], t) && Enabled(t, actions[n]) && s == Step(t, actions[n]);
      FinishedIff(actions[..n], t, id);
      EveryRunKeepsInv(actions[..n], t);
      assert actions == actions[..n] + [actions[n]];
    }
  }

  /** Cancelling does not decide the fate of an order: an order is filled if and only if the
      second step of its execution has been taken, cancelled or not. */
  lemma FilledIffExecuted(actions: seq<Action>, s: State, id: Id)
    requires Reaches(actions, s) && id in s.orders
    ensures s.orders[id].status == Filled <==> Finish(id) in actions
  {
    EveryRunKeepsInv(actions, s);
    FinishedIff(actions, s, id);
  }

  // ----- when a cancellation sticks -----

  ghost predicate WasPlaced(actions: seq<Action>, id: Id) {
    exists j :: 0 <= j < |actions| && actions[j].Place? && actions[j].id == id
  }

  /** Step `k` cancels an order that is placed and not filled. */
  ghost predicate CancelsAt(actions: seq<Action>, id: Id, k: int) {
    && 0 <= k < |actions| && actions[k] == Cancel(id)
    && WasPlaced(actions[..k], id) && Finish(id) !in actions[..k]
  }

  ghost predicate WasCancelled(actions: seq<Action>, id: Id) {
    exists k :: CancelsAt(actions, id, k)
  }

  /** No step of the order's execution comes after step `k`. */
  ghost predicate RestsAfter(actions: seq<Action>, id: Id, k: int)
    requires 0 <= k
  {
    forall j :: k < j < |actions| ==> actions[j] != Begin(id) && actions[j] != Finish(id)
  }

  ghost predicate CancelSticks(actions: seq<Action>, id: Id) {
    exists k :: CancelsAt(actions, id, k) && RestsAfter(actions, id, k)
  }

  ghost predicate CancelsNow(actions: seq<Action>, a: Action, id: Id) {
    a == Cancel(id) && WasPlaced(actions, id) && Finish(id) !in actions
  }

  lemma CancelsOneMore(actions: seq<Action>, a: Action, id: Id, k: int)
    ensures CancelsAt(actions + [a], id, k)
       <==> CancelsAt(actions, id, k) || (k == |actions| && CancelsNow(actions, a, id))
  {
    if 0 <= k <= |actions| {
      assert (actions + [a])[..k] == actions[..k] && actions[..|actions|] == actions;
    }
  }

  lemma RestsOneMore(actions: seq<Action>, a: Action, id: Id, k: int)
    requires 0 <= k <= |actions|
    ensures RestsAfter(actions + [a], id, k)
       <==> RestsAfter(actions, id, k) && (k < |actions| ==> a != Begin(id) && a != Finish(id))
  {
    if RestsAfter(actions + [a], id, k) {
      forall j | k < j < |actions| ensures actions[j] != Begin(id) && actions[j] != Finish(id) {
        assert (actions + [a])[j] == actions[j];
      }
      assert (actions + [a])[|actions|] == a;
    }
  }

  lemma PlacedOneMore(actions: seq<Action>, a: Action, id: Id)
    ensures WasPlaced(actions + [a], id) <==> WasPlaced(actions, id) || (a.Place? && a.id == id)
  {
    var more := actions + [a];
    if WasPlaced(actions, id) {
      var j :| 0 <= j < |actions| && actions[j].Place? && actions[j].id == id;
      assert more[j] == actions[j];
    }
    assert more[|actions|] == a;
    if WasPlaced(more, id) {
      var j :| 0 <= j < |more| && more[j].Place? && more[j].id == id;
      assert j < |actions| ==> actions[j] == more[j];
    }
  }

  lemma CancelledOneMore(actions: seq<Action>, a: Action, id: Id)
    ensures WasCancelled(actions + [a], id) <==> WasCancelled(actions, id) || CancelsNow(actions, a, id)
    ensures CancelSticks(actions + [a], id)
       <==> CancelsNow(actions, a, id) || (CancelSticks(actions, id) && a != Begin(id) && a != Finish(id))
  {
    var more := actions + [a];
    forall k
      ensures CancelsAt(more, id, k) <==> CancelsAt(actions, id, k) || (k == |actions| && CancelsNow(actions, a, id))
    {
      CancelsOneMore(actions, a, id, k);
    }
    forall k | 0 <= k <= |actions|
      ensures RestsAfter(more, id, k)
         <==> RestsAfter(actions, id, k) && (k < |actions| ==> a != Begin(id) && a != Finish(id))
    {
      RestsOneMore(actions, a, id, k);
    }
    if CancelsNow(actions, a, id) {
      assert CancelsAt(more, id, |actions|) && RestsAfter(more, id, |actions|);
    }
  }

  /** What a run has recorded of one order. */
  lemma {:induction false} RunRecords(actions: seq<Action>, s: State, id: Id)
    requires Reaches(actions, s)
    ensures id in s.orders <==> WasPlaced(actions, id)
    ensures id in s.cancelled <==> WasCancelled(actions, id)
    ensures id in s.orders && s.orders[id].status == Cancelled <==> CancelSticks(actions, id)
  {
    if actions != [] {
      var n := |actions| - 1;
      var before, a := actions[..n], actions[n];
      var t :| Reaches(before, t) && Enabled(t, a) && s == Step(t, a);
      RunRecords(before, t, id);
      EveryRunKeepsInv(before, t);
      FinishedIff(before, t, id);
      assert actions == before + [a];
      PlacedOneMore(before, a, id);
      CancelledOneMore(before, a, id);
    }
  }

  /** A cancellation sticks if and only if no step of the order's execution follows it. */
  lemma CancelSticksIff(actions: seq<Action>, s: State, id: Id)
    requires Reaches(actions, s) && id in s.orders
    ensures s.orders[id].status == Cancelled
       <==> exists k :: CancelsAt(actions, id, k) && RestsAfter(actions, id, k)
  {
    RunRecords(actions, s, id);
  }

  /** What `CancelOrder` answers, from the actions so far: there is no such order; its execution has
      taken its second step; a cancellation still sticks; and otherwise it is cancelled. */
  lemma CancelOutcomeIs(actions: seq<Action>, s: State, id: Id)
    requires Reaches(actions, s)
    ensures CancelOutcome(s, id) == Err(NotFound) <==> !WasPlaced(actions, id)
    ensures CancelOutcome(s, id) == Err(AlreadyFilled) <==> Finish(id) in actions
    ensures CancelOutcome(s, id) == Err(AlreadyCancelled) <==> CancelSticks(actions, id)
  {
    RunRecords(actions, s, id);
    EveryRunKeepsInv(actions, s);
    FinishedIff(actions, s, id);
  }

  /** A second cancellation is refused until a step of the order's execution comes in between. */
  lemma SecondCancelIsRefused(actions: seq<Action>, s: State, id: Id)
    requires Reaches(actions, s) && CancelOutcome(s, id) == Ok
    ensures CancelOutcome(Step(s, Cancel(id)), id) == Err(AlreadyCancelled)
    ensures Enabled(s, Begin(id)) ==>
      Enabled(Step(s, Cancel(id)), Begin(id)) && CancelOutcome(Step(Step(s, Cancel(id)), Begin(id)), id) == Ok
  {
  }

  /** `cancelled` holds exactly the cancelled orders if and only if no order whose cancellation
      succeeded was executed further after the last time. */
  lemma CancelledHoldsCancelledIff(actions: seq<Action>, s: State)
    requires Reaches(actions, s)
    ensures (forall id :: id in s.cancelled <==> id in s.orders && s.orders[id].status == Cancelled)
       <==> (forall id :: WasCancelled(actions, id) ==> CancelSticks(actions, id))
  {
    forall id: Id
      ensures id in s.cancelled <==> WasCancelled(actions, id)
      ensures id in s.orders && s.orders[id].status == Cancelled <==> CancelSticks(actions, id)
    {
      RunRecords(actions, s, id);
    }
  }

  /** Cancelling a pending order does not stop its execution: the two steps that are still to come
      fill the order, while it stays filed as cancelled. */
  lemma CancelDoesNotStop(s: State, id: Id)
    requires Inv(s) && id in s.pending
    ensures CancelOutcome(s, id) == Ok
    ensures var t := Step(s, Cancel(id));
            && t.orders[id].status == Cancelled && Enabled(t, Begin(id))
            && var u := Step(t, Begin(id));
            && Enabled(u, Finish(id))
            && var v := Step(u, Finish(id));
            && v.orders[id].status == Filled && id in v.completed && id in v.cancelled
  {
  }

  lemma OneMoreAction(actions: seq<Action>, s: State, a: Action)
    requires Reaches(actions, s) && Enabled(s, a)
    ensures Reaches(actions + [a], Step(s, a))
  {
    assert (actions + [a])[..|actions|] == actions;
  }

  /** The run that places one order and cancels it at once ends with that order filled. */
  lemma CancelledOrderIsFilled(id: Id, order: OrderView) returns (s: State)
    ensures Reaches([Place(id, order), Cancel(id), Begin(id), Finish(id)], s)
    ensures id in s.orders && s.orders[id].status == Filled && id in s.completed && id in s.cancelled
  {
    var placed := Step(EMPTY, Place(id, order));
    OneMoreAction([], EMPTY, Place(id, order));
    assert [] + [Place(id, order)] == [Place(id, order)];
    EveryRunKeepsInv([Place(id, order)], placed);
    CancelDoesNotStop(placed, id);
    var cancelled := Step(placed, Cancel(id));
    OneMoreAction([Place(id, order)], placed, Cancel(id));
    OneMoreAction([Place(id, order)] + [Cancel(id)], cancelled, Begin(id));
    OneMoreAction([Place(id, order)] + [Cancel(id)] + [Begin(id)], Step(cancelled, Begin(id)), Finish(id));
    s := Step(Step(cancelled, Begin(id)), Finish(id));
    assert [Place(id, order)] + [Cancel(id)] + [Begin(id)] + [Finish(id)]
        == [Place(id, order), Cancel(id), Begin(id), Finish(id)];
  }
}
