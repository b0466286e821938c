/** The copy-on-write routing table: an abstract table, the snapshots that represent it, and
    the router object that publishes them. */
module Routing {
  import opened Wire

  type Id = string

  /** Tenant configuration and pool defaults are passed through unread. */
  datatype Table<T, D> = Table(tenants: map<Id, T>, defaults: D, paused: map<Id, bool>)

  /** The routing table as its users see it: each tenant with its configuration and whether it
      is paused, and the pool defaults. */
  datatype View<T, D> = View(tenants: map<Id, (T, bool)>, defaults: D)

  function Seen<T, D>(s: Table<T, D>): View<T, D> {
    View(map id | id in s.tenants :: (s.tenants[id], id in s.paused && s.paused[id]), s.defaults)
  }

  /** Only known tenants are paused, and a paused entry always says true. */
  ghost predicate Coherent<T, D>(s: Table<T, D>) {
    forall id | id in s.paused :: id in s.tenants && s.paused[id]
  }

  // ---- The mutations, on values ----

  datatype Op<T, D> =
    | Add(id: Id, tenant: T)
    | Remove(id: Id)
    | Pause(id: Id)
    | Resume(id: Id)
    | Reload(tenants: map<Id, T>, defaults: D)

  function Apply<T, D>(s: Table<T, D>, op: Op<T, D>): Table<T, D> {
    match op
    case Add(id, tenant) => s.(tenants := s.tenants[id := tenant])
    case Remove(id) => if id in s.tenants then s.(tenants := s.tenants - {id}, paused := s.paused - {id}) else s
    case Pause(id) => if id in s.tenants then s.(paused := s.paused[id := true]) else s
    case Resume(id) => if id in s.tenants then s.(paused := s.paused - {id}) else s
    case Reload(tenants, defaults) =>
      Table(tenants, defaults, map id | id in s.paused && id in tenants :: s.paused[id])
  }

  function Mode<T, D>(v: View<T, D>, id: Id): bool {
    id in v.tenants && v.tenants[id].1
  }

  /** The same mutations on the abstract table: one update each. */
  function Abstract<T, D>(v: View<T, D>, op: Op<T, D>): View<T, D> {
    match op
    case Add(id, tenant) => v.(tenants := v.tenants[id := (tenant, Mode(v, id))])
    case Remove(id) => v.(tenants := v.tenants - {id})
    case Pause(id) => if id in v.tenants then v.(tenants := v.tenants[id := (v.tenants[id].0, true)]) else v
    case Resume(id) => if id in v.tenants then v.(tenants := v.tenants[id := (v.tenants[id].0, false)]) else v
    case Reload(tenants, defaults) => View(map id | id in tenants :: (tenants[id], Mode(v, id)), defaults)
  }

  /** Each mutation keeps the table coherent and is one update of the abstract table. */
  lemma MutationRefines<T, D>(s: Table<T, D>, op: Op<T, D>)
    requires Coherent(s)
    ensures Coherent(Apply(s, op)) && Seen(Apply(s, op)) == Abstract(Seen(s), op)
  {
    assert Seen(Apply(s, op)).tenants == Abstract(Seen(s), op).tenants;
  }

  function ApplyAll<T, D>(s: Table<T, D>, ops: seq<Op<T, D>>): Table<T, D>
    decreases |ops|
  {
    if ops == [] then s else ApplyAll(Apply(s, ops[0]), ops[1..])
  }

  function AbstractAll<T, D>(v: View<T, D>, ops: seq<Op<T, D>>): View<T, D>
    decreases |ops|
  {
    if ops == [] then v else AbstractAll(Abstract(v, ops[0]), ops[1..])
  }

  /** So in every reachable state, from any configuration, the paused tenants are known tenants
      and the table is what the abstract table would be. */
  lemma {:induction false} EveryStateRefines<T, D>(s: Table<T, D>, ops: seq<Op<T, D>>)
    requires Coherent(s)
    ensures Coherent(ApplyAll(s, ops)) && Seen(ApplyAll(s, ops)) == AbstractAll(Seen(s), ops)
    decreases |ops|
  {
    if ops != [] {
      MutationRefines(s, ops[0]);
      EveryStateRefines(Apply(s, ops[0]), ops[1..]);
    }
  }

  /** A tenant that is removed and added again is not paused, whatever happened before. */
  lemma RemovedTenantComesBackUnpaused<T, D>(s: Table<T, D>, id: Id, tenant: T)
    requires Coherent(s)
    ensures var v := Seen(Apply(Apply(s, Remove(id)), Add(id, tenant))).tenants; id in v && v[id] == (tenant, false)
  {
    MutationRefines(s, Remove(id));
    MutationRefines(Apply(s, Remove(id)), Add(id, tenant));
  }

  /** A reload installs the new tenants and defaults, and keeps the pause state of exactly the
      tenants that survive it. */
  lemma ReloadKeepsPauses<T, D>(s: Table<T, D>, tenants: map<Id, T>, defaults: D, id: Id)
    requires Coherent(s)
    ensures var v := Seen(Apply(s, Reload(tenants, defaults)));
            && v.defaults == defaults
            && (id in v.tenants <==> id in tenants)
            && (id in v.tenants ==> v.tenants[id] == (tenants[id], id in Seen(s).tenants && Seen(s).tenants[id].1))
  {
    MutationRefines(s, Reload(tenants, defaults));
  }

  // ---- The objects ----

  class Snapshot<T, D> {
    var tenants: map<Id, T>
    var defaults: D
    var paused: map<Id, bool>

    constructor (tenants: map<Id, T>, defaults: D, paused: map<Id, bool>)
      ensures Value() == Table(tenants, defaults, paused)
    {
      this.tenants, this.defaults, this.paused := tenants, defaults, paused;
    }

    ghost function Value(): Table<T, D>
      reads this
    {
      Table(tenants, defaults, paused)
    }
  }

  class Router<T, D> {
    var snap: Snapshot<T, D>
    // every snapshot a reader may still be looking at
    ghost var published: set<Snapshot<T, D>>

    ghost predicate Valid()
      reads this, snap
    {
      snap in published && Coherent(snap.Value())
    }

    constructor (tenants: map<Id, T>, defaults: D)
      ensures Valid() && snap.Value() == Table(tenants, defaults, map[]) && published == {snap}
    {
      var s := new Snapshot(tenants, defaults, map[]);
      snap, published := s, {s};
    }

    // A mutable copy of the current snapshot.
    method CloneSnap() returns (s: Snapshot<T, D>)
      ensures fresh(s) && s.Value() == snap.Value()
    {
      s := new Snapshot(snap.tenants, snap.defaults, snap.paused);
    }

    // Swaps in a new snapshot; no published one is written.
    method Store(s: Snapshot<T, D>)
      requires Coherent(s.Value())
      modifies this
      ensures Valid() && snap == s && published == old(published) + {s}
    {
      snap, published := s, published + {s};
    }

    method AddTenant(id: Id, tenant: T)
      requires Valid()
      modifies this
      ensures Valid() && fresh(snap) && snap.Value() == Apply(old(snap.Value()), Add(id, tenant))
      ensures published == old(published) + {snap} && forall s | s in old(published) :: s.Value() == old(s.Value())
    {
      MutationRefines(snap.Value(), Op<T, D>.Add(id, tenant));
      var s := CloneSnap();
      s.tenants := s.tenants[id := tenant];
      Store(s);
    }

    method RemoveTenant(id: Id) returns (found: bool)
      requires Valid()
      modifies this
      ensures Valid() && found == (id in old(snap.tenants))
      ensures snap.Value() == Apply(old(snap.Value()), Remove(id)) && (if found then fresh(snap) else snap == old(snap))
      ensures published == old(published) + {snap} && forall s | s in old(published) :: s.Value() == old(s.Value())
    {
      if id !in snap.tenants {
        return false;
      }
      MutationRefines(snap.Value(), Op<T, D>.Remove(id));
      var s := CloneSnap();
      s.tenants := s.tenants - {id};
      s.paused := s.paused - {id};
      Store(s);
      return true;
    }

    method PauseTenant(id: Id) returns (found: bool)
      requires Valid()
      modifies this
      ensures Valid() && found == (id in old(snap.tenants))
      ensures snap.Value() == Apply(old(snap.Value()), Pause(id)) && (if found then fresh(snap) else snap == old(snap))
      ensures published == old(published) + {snap} && forall s | s in old(published) :: s.Value() == old(s.Value())
    {
      if id !in snap.tenants {
        return false;
      }
      MutationRefines(snap.Value(), Op<T, D>.Pause(id));
      var s := CloneSnap();
      s.paused := s.paused[id := true];
      Store(s);
      return true;
    }

    method ResumeTenant(id: Id) returns (found: bool)
      requires Valid()
      modifies this
      ensures Valid() && found == (id in old(snap.tenants))
      ensures snap.Value() == Apply(old(snap.Value()), Resume(id)) && (if found then fresh(snap) else snap == old(snap))
      ensures published == old(published) + {snap} && forall s | s in old(published) :: s.Value() == old(s.Value())
    {
      if id !in snap.tenants {
        return false;
      }
      MutationRefines(snap.Value(), Op<T, D>.Resume(id));
      var s := CloneSnap();
      s.paused := s.paused - {id};
      Store(s);
      return true;
    }

    method ReloadTable(tenants: map<Id, T>, defaults: D)
      requires Valid()
      modifies this
      ensures Valid() && fresh(snap) && snap.Value() == Apply(old(snap.Value()), Reload(tenants, defaults))
      ensures published == old(published) + {snap} && forall s | s in old(published) :: s.Value() == old(s.Value())
    {
      MutationRefines(snap.Value(), Reload(tenants, defaults));
      var kept := map[];
      var left := snap.paused.Keys;
      while left != {}
        invariant left <= snap.paused.Keys
        invariant kept == map id | id in snap.paused && id !in left && id in tenants :: snap.paused[id]
        decreases left
      {
        var id :| id in left;
        if id in tenants {
          kept := kept[id := snap.paused[id]];
        }
        left := left - {id};
      }
      var s := new Snapshot(tenants, defaults, kept);
      Store(s);
    }

    // Lock-free reads of the current snapshot.
    method Resolve(id: Id) returns (r: Option<T>)
      requires Valid()
      ensures var v := Seen(snap.Value()).tenants; r == if id in v then Some(v[id].0) else None
    {
      if id !in snap.tenants {
        return None;
      }
      return Some(snap.tenants[id]);
    }

    method IsPaused(id: Id) returns (paused: bool)
      requires Valid()
      ensures paused <==> Mode(Seen(snap.Value()), id)
    {
      paused := id in snap.paused && snap.paused[id];
    }
  }
}
