/** The world state (`Model` in Model.h/Model.cpp): it owns one actor store,
    keeps an ordered list of observing views, applies actions to the store
    in order and pushes the store to every observer on request. */
module WorldModel {
  import opened Wrappers
  import opened ActorStore
  import Views

  /** Identity of an observing view: the raw, non-owning `View*`. */
  type ViewId = nat

  /** What an action may throw. */
  datatype ActionError = StoreFault(fault: OutOfRangeError) | ActionFault(message: string)

  /** `Action::Execute` is declared but never defined, so an action is any
      transformation of the store. It works on the store by reference, so
      whatever it changed before throwing stays changed: an action yields the
      store as it leaves it and, if it threw, the exception. */
  type Action = Actors -> (Actors, Option<ActionError>)

  datatype Model = Model(actors: Actors, views: seq<ViewId>)

  /** The constructor: an empty store and no observers. The actor-count
      hint and the 16-entry reservation only pre-allocate. */
  function NewModel(numActors: nat): (r: Model)
    ensures Valid(r.actors) && r.actors.length == 0 && r.views == []
  {
    Model(NewActors(numActors), [])
  }

  /** `Attach` appends the view, even when it is already attached; it
      cannot fail. */
  function Attach(m: Model, v: ViewId): (r: Model)
    ensures r.actors == m.actors
    ensures |r.views| == |m.views| + 1 && r.views[..|m.views|] == m.views && r.views[|m.views|] == v
    ensures multiset(r.views) == multiset(m.views) + multiset{v}
  {
    m.(views := m.views + [v])
  }

  /** `std::find`: the position of the first occurrence of `x`. */
  function IndexOf<T(==)>(s: seq<T>, x: T): (k: nat)
    requires x in s
    ensures k < |s| && s[k] == x && x !in s[..k]
  {
    if s[0] == x then 0
    else
      assert s == [s[0]] + s[1..];
      var k := IndexOf(s[1..], x);
      assert s[..k + 1] == [s[0]] + s[1..][..k];
      k + 1
  }

  /** `s` with its first occurrence of `x` erased, if there is one. */
  function RemoveFirst<T(==)>(s: seq<T>, x: T): (r: seq<T>)
    ensures x !in s ==> r == s
    ensures x in s ==> |r| == |s| - 1
    ensures x in s ==> exists k :: 0 <= k < |s| && s[k] == x && x !in s[..k] && r == s[..k] + s[k + 1..]
    ensures multiset(r) == multiset(s) - multiset{x}
  {
    if x in s then
      var k := IndexOf(s, x);
      assert s == s[..k] + [s[k]] + s[k + 1..];
      s[..k] + s[k + 1..]
    else
      s
  }

  /** `Detach` erases only the first matching entry, keeping the order of
      the others, and is a no-op for a view that is not attached; it cannot
      fail. */
  function Detach(m: Model, v: ViewId): (r: Model)
    ensures r.actors == m.actors
    ensures v !in m.views ==> r == m
    ensures v in m.views ==> |r.views| == |m.views| - 1
    ensures v in m.views ==> exists k :: 0 <= k < |m.views| && m.views[k] == v && v !in m.views[..k]
                                      && r.views == m.views[..k] + m.views[k + 1..]
    ensures multiset(r.views) == multiset(m.views) - multiset{v}
  {
    m.(views := RemoveFirst(m.views, v))
  }

  /** Detaching a view that was just attached for the first time restores
      the observer list. */
  lemma DetachUndoesAttach(m: Model, v: ViewId)
    requires v !in m.views
    ensures Detach(Attach(m, v), v) == m
  {
    var s := m.views + [v];
    assert s[|m.views|] == v;
    assert s[..|m.views|] == m.views;
    var k := IndexOf(s, v);
    assert k == |m.views|;
  }

  /** A duplicate attachment survives one detach. */
  lemma DuplicateAttachSurvivesDetach(m: Model, v: ViewId)
    ensures v in Detach(Attach(Attach(m, v), v), v).views
  {
    var r := Detach(Attach(Attach(m, v), v), v);
    assert multiset(r.views)[v] >= 1;
  }

  /** The views each listed observer sees can be updated: it exists and its
      cache covers every live actor (`UpdateView` indexes without checks). */
  predicate CanNotify(list: seq<ViewId>, actors: Actors, views: map<ViewId, Views.View>) {
    Valid(actors) &&
    forall v :: v in list ==> v in views && actors.length <= |views[v].screen|
  }

  /** `Notify`'s loop: each entry of the list, in list order, has its view
      updated from the store; a view listed twice is updated twice, which
      gives the same result as once. Views not listed are untouched. */
  function NotifyEach(list: seq<ViewId>, actors: Actors, views: map<ViewId, Views.View>): (r: map<ViewId, Views.View>)
    requires CanNotify(list, actors, views)
    ensures r.Keys == views.Keys
    ensures forall v :: v in list ==> r[v] == Views.UpdateView(views[v], actors)
    ensures forall v :: v in views && v !in list ==> r[v] == views[v]
    decreases |list|
  {
    if list == [] then views
    else
      var v := list[0];
      var updated := views[v := Views.UpdateView(views[v], actors)];
      Views.UpdateViewIdempotent(views[v], actors);
      assert forall w :: w in list[1..] ==> w in list;
      NotifyEach(list[1..], actors, updated)
  }

  /** `Notify`: every attached view is brought in sync with the store. */
  function Notify(m: Model, views: map<ViewId, Views.View>): (r: map<ViewId, Views.View>)
    requires CanNotify(m.views, m.actors, views)
    ensures r.Keys == views.Keys
    ensures forall v :: v in m.views ==> |r[v].screen| == |views[v].screen|
    ensures forall v :: v in m.views ==> Views.InSync(r[v], m.actors)
    ensures forall v :: v in views && v !in m.views ==> r[v] == views[v]
    ensures forall v :: v in m.views ==> r[v] == Views.UpdateView(views[v], m.actors)
  {
    var r := NotifyEach(m.views, m.actors, views);
    assert forall v :: v in m.views ==> r[v] == Views.UpdateView(views[v], m.actors);
    r
  }

  /** `Simulate` is const: the controller reads the store and the model
      comes back unchanged. */
  function Simulate<T>(m: Model, control: Actors -> T): (r: (Model, T))
    ensures r.0 == m
    ensures r.1 == control(m.actors)
  {
    (m, control(m.actors))
  }

  /** `Apply`: actions execute in order on the store; the first one that
      throws stops the batch, leaving the effects of those before it and
      whatever the throwing action changed before it threw. */
  function Apply(m: Model, actions: seq<Action>): (r: (Model, Outcome<ActionError>))
    ensures r.0.views == m.views
    ensures actions == [] ==> r == (m, Pass)
    decreases |actions|
  {
    if actions == [] then (m, Pass)
    else
      var (a, thrown) := actions[0](m.actors);
      if thrown.Some? then (m.(actors := a), Fail(thrown.value))
      else Apply(m.(actors := a), actions[1..])
  }

  /** A batch of one action leaves the store as the action left it, and
      reports the exception exactly when the action threw. */
  lemma ApplyOne(m: Model, action: Action)
    ensures Apply(m, [action]).0 == m.(actors := action(m.actors).0)
    ensures action(m.actors).1.None? ==> Apply(m, [action]).1 == Pass
    ensures action(m.actors).1.Some? ==> Apply(m, [action]).1 == Fail(action(m.actors).1.value)
  {
  }

  /** Applying two batches one after the other is applying their
      concatenation: actions run strictly in list order. */
  lemma {:induction false} ApplyConcat(m: Model, first: seq<Action>, second: seq<Action>)
    ensures Apply(m, first + second)
         == (var (m1, o1) := Apply(m, first); if o1.Fail? then (m1, o1) else Apply(m1, second))
    decreases |first|
  {
    if first == [] {
      assert first + second == second;
    } else {
      assert (first + second)[1..] == first[1..] + second;
      var (a, thrown) := first[0](m.actors);
      if thrown.None? {
        ApplyConcat(m.(actors := a), first[1..], second);
      }
    }
  }

  /** An action that adds an actor and then throws leaves the added actor in
      the store: a throw does not roll back. */
  lemma ThrowKeepsEarlierChanges(m: Model, row: Row, e: ActionError)
    requires Valid(m.actors)
    ensures var pushThenThrow: Action := (a: Actors) => (Push(a, row.pd, row.md, row.kind, row.attributes), Some(e));
      var r := Apply(m, [pushThenThrow]);
      r.1 == Fail(e) && Valid(r.0.actors) && Rows(r.0.actors) == Rows(m.actors) + [row]
  {
  }

  /** After a batch of actions and a notification, every attached view shows
      the store as the batch left it, not as it was before. */
  lemma NotifyAfterApplyShowsResult(m: Model, actions: seq<Action>, views: map<ViewId, Views.View>)
    requires CanNotify(m.views, Apply(m, actions).0.actors, views)
    ensures forall v :: v in m.views ==>
      Views.InSync(Notify(Apply(m, actions).0, views)[v], Apply(m, actions).0.actors)
  {
  }

  /** `AddActor` appends one actor to the store and leaves the observers. */
  function AddActor(m: Model, pd: PositionData, md: MovementData, at: ActorType, attrib: Attributes): (r: Model)
    requires Valid(m.actors)
    ensures r.views == m.views && Valid(r.actors)
    ensures Rows(r.actors) == Rows(m.actors) + [Row(pd, md, at, attrib)]
  {
    m.(actors := Push(m.actors, pd, md, at, attrib))
  }

  /** The removal protocol with an explicit swap partner: swap the actor
      at `index` with the one at `partner`, then pop the last one. A rejected
      swap throws before anything changes. */
  function SwapThenPop(m: Model, index: nat, partner: nat): (r: (Model, Outcome<OutOfRangeError>))
    requires Valid(m.actors)
    ensures r.0.views == m.views && Valid(r.0.actors)
    ensures r.1.Pass? <==> index < m.actors.length && partner < m.actors.length
    ensures r.1.Fail? ==> r.0 == m && r.1.error == OutOfRange
    ensures r.1.Pass? ==>
      Rows(r.0.actors) == SeqSwap(Rows(m.actors), index, partner)[..m.actors.length - 1]
  {
    match Swap(m.actors, index, partner)
    case Failure(e) => (m, Fail(e))
    case Success(a) =>
      SwapPermutes(m.actors, index, partner);
      (m.(actors := Pop(a)), Pass)
  }

  /** `RemoveActor` as written: the swap partner is the length itself, which
      `Swap` always rejects, so the call throws for every index and `Pop` is
      never reached; the store is left as it was. */
  function RemoveActor(m: Model, index: nat): (r: (Model, Outcome<OutOfRangeError>))
    requires Valid(m.actors)
    ensures r.0 == m
    ensures r.1 == Fail(OutOfRange)
  {
    SwapThenPop(m, index, GetLength(m.actors))
  }

  /** Removal as intended: swap the actor with the last one, then pop. The
      old last actor takes the removed actor's index; every other actor keeps
      its index; an index past the end throws without changing anything. On
      an empty store `GetLength() - 1` wraps to the largest `size_t`, which
      the swap rejects as well. */
  function RemoveActorIntended(m: Model, index: nat): (r: (Model, Outcome<OutOfRangeError>))
    requires Valid(m.actors)
    ensures r.0.views == m.views && Valid(r.0.actors)
    ensures r.1.Pass? <==> index < m.actors.length
    ensures r.1.Fail? ==> r.0 == m
    ensures r.1.Pass? ==>
      && r.0.actors.length == m.actors.length - 1
      && (forall k :: 0 <= k < r.0.actors.length && k != index ==> RowAt(r.0.actors, k) == RowAt(m.actors, k))
      && (index < r.0.actors.length ==> RowAt(r.0.actors, index) == RowAt(m.actors, m.actors.length - 1))
  {
    if GetLength(m.actors) == 0 then (m, Fail(OutOfRange))
    else
      var r := SwapThenPop(m, index, GetLength(m.actors) - 1);
      SwapPopRemovesWhenInRange(m.actors, index);
      r
  }

  /** Removing the only actor of a one-actor store empties it; the as-written
      removal leaves it at one actor. */
  lemma RemoveActorDiscrepancy(m: Model)
    requires Valid(m.actors) && m.actors.length == 1
    ensures RemoveActor(m, 0).0.actors.length == 1
    ensures RemoveActorIntended(m, 0).0.actors.length == 0
  {
  }
}
