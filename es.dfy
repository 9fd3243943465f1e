// The entity system of src-xpl/xpl_es.c. An entity owns at most one
// component per type id; every component is filed in three uthash indexes
// that must agree: by its data pointer (by_ptr_table), by type id and then
// entity (by_type_id_table and its by_eid tables), and in its entity's own
// table by type id. Pointers and type ids are numbers; NULL and
// XPL_ENTITY_NONE are 0. The allocator and destructor callbacks are
// recorded by name.

module Es {
  type Eid = int
  type TypeId = int
  type Ptr = int

  /** XPL_ENTITY_NONE. */
  const NoEntity: Eid := 0
  const Null: Ptr := 0

  /** An es_component_t: the entity and the type a component is filed under. */
  datatype Registration = Registration(eid: Eid, typeId: TypeId)

  /** An es_allocator_t's two callbacks. */
  datatype Handlers = Handlers(allocator: nat, destructor: nat)

  /** How a destroyed component's memory was given back. */
  datatype Disposal = Destructor(handler: nat) | Freed

  datatype Store = Store(
    nextId: int,
    /** entity_table, each entity with its component_table by type id. */
    entities: map<Eid, map<TypeId, Ptr>>,
    byPtr: map<Ptr, Registration>,
    /** by_type_id_table: for each type, its by_eid table. */
    byType: map<TypeId, map<Eid, Ptr>>,
    allocators: map<TypeId, Handlers>)

  /** A registered component is filed in the other two indexes under its own entity and type. */
  ghost predicate Filed(s: Store, p: Ptr)
    requires p in s.byPtr
  {
    var r := s.byPtr[p];
    && r.eid in s.entities && r.typeId in s.entities[r.eid] && s.entities[r.eid][r.typeId] == p
    && r.typeId in s.byType && r.eid in s.byType[r.typeId] && s.byType[r.typeId][r.eid] == p
  }

  /** The three indexes agree; entity ids lie in [1, next_id); no NULL
      component and no component of the reserved type id 0 is registered. */
  ghost predicate Valid(s: Store)
  {
    && 0 < s.nextId
    && (forall e :: e in s.entities ==> NoEntity < e < s.nextId)
    && Null !in s.byPtr
    && (forall p :: p in s.byPtr ==> s.byPtr[p].typeId != 0 && Filed(s, p))
    && (forall e, t :: e in s.entities && t in s.entities[e] ==>
          s.entities[e][t] in s.byPtr && s.byPtr[s.entities[e][t]] == Registration(e, t))
    && (forall t, e :: t in s.byType && e in s.byType[t] ==>
          s.byType[t][e] in s.byPtr && s.byPtr[s.byType[t][e]] == Registration(e, t))
  }

  /** xpl_es_new: no entities, next_id at XPL_ENTITY_NONE + 1. */
  function Empty(): (s: Store)
    ensures Valid(s) && s.nextId == NoEntity + 1
  {
    Store(NoEntity + 1, map[], map[], map[], map[])
  }

  /** xpl_entity_new: the entity gets next_id, which then advances. */
  function EntityNew(s: Store): (Store, Eid)
  {
    (s.(nextId := s.nextId + 1, entities := s.entities[s.nextId := map[]]), s.nextId)
  }

  /** A new entity's id is above NONE and above every id handed out before,
      it starts with no components, and the indexes still agree. */
  lemma EntityNewFresh(s: Store)
    requires Valid(s)
    ensures var (s2, e) := EntityNew(s);
      && Valid(s2) && NoEntity < e && e !in s.entities && s2.entities[e] == map[]
      && (forall x :: x in s.entities ==> x < e) && e < s2.nextId
  {
    var (s2, e) := EntityNew(s);
    forall p | p in s2.byPtr
      ensures Filed(s2, p)
    {
      assert Filed(s, p);
    }
  }

  /** Ids strictly increase from one xpl_entity_new to the next. */
  lemma EntityIdsIncrease(s: Store)
    requires Valid(s)
    ensures EntityNew(s).1 < EntityNew(EntityNew(s).0).1
  {
  }

  /** xpl_entity_component_with_type_id: the entity's component of that type, or NULL. */
  function EntityComponent(s: Store, e: Eid, t: TypeId): Ptr
    requires e in s.entities
  {
    if t in s.entities[e] then s.entities[e][t] else Null
  }

  /** xpl_entity_with_component: the owning entity, or NONE. */
  function EntityWithComponent(s: Store, c: Ptr): Eid
    requires c != Null
  {
    if c in s.byPtr then s.byPtr[c].eid else NoEntity
  }

  /** xpl_component_type_id: the registered type, or 0. */
  function ComponentType(s: Store, c: Ptr): TypeId
    requires c != Null
  {
    if c in s.byPtr then s.byPtr[c].typeId else 0
  }

  /** A component that is not registered looks like no component at all. */
  lemma UnregisteredLookups(s: Store, c: Ptr)
    requires Valid(s) && c != Null
    ensures c !in s.byPtr <==> EntityWithComponent(s, c) == NoEntity
    ensures c !in s.byPtr <==> ComponentType(s, c) == 0
  {
    if c in s.byPtr {
      assert Filed(s, c);
    }
  }

  /** Every entry of a by_eid table belongs to its entity's own table. */
  lemma ByTypeOwned(s: Store)
    requires Valid(s)
    ensures forall t, e :: t in s.byType && e in s.byType[t] ==> e in s.entities && t in s.entities[e]
  {
    forall t, e | t in s.byType && e in s.byType[t]
      ensures e in s.entities && t in s.entities[e]
    {
      assert Filed(s, s.byType[t][e]);
    }
  }

  /** A registered component is its entity's component of its type. */
  /** With no entity left, nothing stays registered. */
  lemma NoEntitiesNoComponents(s: Store)
    requires Valid(s) && s.entities == map[]
    ensures s.byPtr == map[]
    ensures forall t :: t in s.byType ==> s.byType[t] == map[]
  {
    ByPtrOwned(s);
    ByTypeOwned(s);
    assert forall e :: e !in s.entities;
    assert forall p :: p !in s.byPtr;
    Unkeyed(s.byPtr);
    forall t | t in s.byType
      ensures s.byType[t] == map[]
    {
      assert forall e :: e !in s.byType[t];
      Unkeyed(s.byType[t]);
    }
  }

  /** A map with no key in it is the empty map. */
  lemma Unkeyed<K, V>(m: map<K, V>)
    requires forall k :: k !in m
    ensures m == map[]
  {
  }

  lemma ByPtrOwned(s: Store)
    requires Valid(s)
    ensures forall p :: p in s.byPtr ==>
      s.byPtr[p].eid in s.entities && s.byPtr[p].typeId in s.entities[s.byPtr[p].eid]
      && s.entities[s.byPtr[p].eid][s.byPtr[p].typeId] == p
  {
    forall p | p in s.byPtr
      ensures s.byPtr[p].eid in s.entities && s.byPtr[p].typeId in s.entities[s.byPtr[p].eid]
      ensures s.entities[s.byPtr[p].eid][s.byPtr[p].typeId] == p
    {
      assert Filed(s, p);
    }
  }

  /** The three HASH_ADDs of xpl_component_assign_type_id; the type's by_eid
      table is created on first use. */
  function Assigned(s: Store, e: Eid, c: Ptr, t: TypeId): Store
    requires e in s.entities
  {
    var table := if t in s.byType then s.byType[t] else map[];
    s.(entities := s.entities[e := s.entities[e][t := c]],
       byPtr := s.byPtr[c := Registration(e, t)],
       byType := s.byType[t := table[e := c]])
  }

  datatype Outcome = Done(store: Store) | DuplicateComponent

  /** xpl_component_assign_type_id: a second component of a type the entity
      already has is the logged error (the assertion), and nothing is filed. */
  function Assign(s: Store, e: Eid, c: Ptr, t: TypeId): Outcome
    requires e in s.entities
  {
    if EntityComponent(s, e, t) != Null then DuplicateComponent else Done(Assigned(s, e, c, t))
  }

  /** The error happens exactly when the entity already has a component of the type. */
  lemma AssignDuplicateIsError(s: Store, e: Eid, c: Ptr, t: TypeId)
    requires Valid(s) && e in s.entities
    ensures Assign(s, e, c, t) == DuplicateComponent <==> t in s.entities[e]
  {
  }

  /** A fresh component of a new type is filed in all three indexes, every
      lookup finds it, and the indexes still agree. */
  lemma AssignRegisters(s: Store, e: Eid, c: Ptr, t: TypeId)
    requires Valid(s) && e in s.entities && c != Null && c !in s.byPtr && t != 0 && t !in s.entities[e]
    ensures var s2 := Assigned(s, e, c, t);
      && Valid(s2)
      && EntityComponent(s2, e, t) == c && EntityWithComponent(s2, c) == e && ComponentType(s2, c) == t
      && t in s2.byType && s2.byType[t][e] == c
  {
    var s2 := Assigned(s, e, c, t);
    ByTypeOwned(s);
    forall p | p in s2.byPtr
      ensures s2.byPtr[p].typeId != 0 && Filed(s2, p)
    {
      if p != c {
        assert Filed(s, p);
      }
    }
    forall x, u | x in s2.entities && u in s2.entities[x]
      ensures s2.entities[x][u] in s2.byPtr && s2.byPtr[s2.entities[x][u]] == Registration(x, u)
    {
      if (x, u) != (e, t) {
        assert s.entities[x][u] in s.byPtr;
      }
    }
    forall u, x | u in s2.byType && x in s2.byType[u]
      ensures s2.byType[u][x] in s2.byPtr && s2.byPtr[s2.byType[u][x]] == Registration(x, u)
    {
      if (x, u) != (e, t) {
        assert s.byType[u][x] in s.byPtr;
      }
    }
  }

  /** The three HASH_DELETEs of xpl_component_remove_type_id. The type's
      by_eid table stays in by_type_id_table even when it empties. */
  function Removed(s: Store, c: Ptr, t: TypeId): Store
    requires c in s.byPtr && s.byPtr[c].eid in s.entities && t in s.byType
  {
    var e := s.byPtr[c].eid;
    s.(entities := s.entities[e := s.entities[e] - {t}],
       byPtr := s.byPtr - {c},
       byType := s.byType[t := s.byType[t] - {e}])
  }

  /** What xpl_component_remove_type_id asserts: a registered component,
      given its own non-zero type id. */
  ghost predicate Removable(s: Store, c: Ptr, t: TypeId)
  {
    Valid(s) && c in s.byPtr && s.byPtr[c].typeId == t && t != 0
  }

  /** Removal unfiles the component from all three indexes and keeps them in agreement. */
  lemma RemoveUnfiles(s: Store, c: Ptr, t: TypeId)
    requires Removable(s, c, t)
    ensures Filed(s, c)
    ensures var s2 := Removed(s, c, t);
      && Valid(s2)
      && EntityWithComponent(s2, c) == NoEntity && ComponentType(s2, c) == 0
      && EntityComponent(s2, s.byPtr[c].eid, t) == Null && s.byPtr[c].eid !in s2.byType[t]
      && s2.entities.Keys == s.entities.Keys && s2.nextId == s.nextId
  {
    assert Filed(s, c);
    var e := s.byPtr[c].eid;
    var s2 := Removed(s, c, t);
    forall p | p in s2.byPtr
      ensures s2.byPtr[p].typeId != 0 && Filed(s2, p)
    {
      assert Filed(s, p);
    }
    forall x, u | x in s2.entities && u in s2.entities[x]
      ensures s2.entities[x][u] in s2.byPtr && s2.byPtr[s2.entities[x][u]] == Registration(x, u)
    {
      assert s.entities[x][u] in s.byPtr;
    }
    forall u, x | u in s2.byType && x in s2.byType[u]
      ensures s2.byType[u][x] in s2.byPtr && s2.byPtr[s2.byType[u][x]] == Registration(x, u)
    {
      assert s.byType[u][x] in s.byPtr;
    }
  }

  /** Removing what was just assigned restores the indexes, except that a
      type seen for the first time keeps its now empty by_eid table. */
  lemma RemoveUndoesAssign(s: Store, e: Eid, c: Ptr, t: TypeId)
    requires Valid(s) && e in s.entities && c != Null && c !in s.byPtr && t != 0 && t !in s.entities[e]
    ensures Removed(Assigned(s, e, c, t), c, t)
      == if t in s.byType then s else s.(byType := s.byType[t := map[]])
  {
    RemoveAssignedEntities(s, e, c, t);
    RemoveAssignedByType(s, e, c, t);
  }

  /** The entity table and by_ptr_table of RemoveUndoesAssign. */
  lemma RemoveAssignedEntities(s: Store, e: Eid, c: Ptr, t: TypeId)
    requires e in s.entities && c !in s.byPtr && t !in s.entities[e]
    ensures var s2 := Removed(Assigned(s, e, c, t), c, t);
      s2.entities == s.entities && s2.byPtr == s.byPtr
  {
    var s2 := Removed(Assigned(s, e, c, t), c, t);
    assert s2.entities[e] == s.entities[e];
  }

  /** The by_type_id_table of RemoveUndoesAssign. */
  lemma RemoveAssignedByType(s: Store, e: Eid, c: Ptr, t: TypeId)
    requires Valid(s) && e in s.entities && t !in s.entities[e]
    ensures var s2 := Removed(Assigned(s, e, c, t), c, t);
      s2.byType == if t in s.byType then s.byType else s.byType[t := map[]]
  {
    if t in s.byType {
      ByTypeOwned(s);
      assert e !in s.byType[t];
    }
    RemoveAssignedTable(s, e, c, t);
  }

  /** Filing a component under an entity its type's table lacks, then
      unfiling it, leaves that table as it was, or empty if it was created. */
  lemma RemoveAssignedTable(s: Store, e: Eid, c: Ptr, t: TypeId)
    requires e in s.entities && (t in s.byType ==> e !in s.byType[t])
    ensures var s2 := Removed(Assigned(s, e, c, t), c, t);
      s2.byType == if t in s.byType then s.byType else s.byType[t := map[]]
  {
    var s1 := Assigned(s, e, c, t);
    assert s1.byPtr[c].eid == e;
    var s2 := Removed(s1, c, t);
    if t in s.byType {
      var table := s.byType[t];
      assert table[e := c] - {e} == table;
      assert s2.byType == s.byType[t := table];
    } else {
      assert map[e := c] - {e} == map[];
    }
  }

  /** The callback a type's components are destroyed with. */
  function DisposalFor(s: Store, t: TypeId): Disposal
  {
    if t in s.allocators then Destructor(s.allocators[t].destructor) else Freed
  }

  /** xpl_component_allocator_for_type_id: set or replace the type's callbacks. */
  function AllocatorSet(s: Store, t: TypeId, h: Handlers): (s2: Store)
    ensures DisposalFor(s2, t) == Destructor(h.destructor)
    ensures forall u :: u != t ==> DisposalFor(s2, u) == DisposalFor(s, u)
  {
    s.(allocators := s.allocators[t := h])
  }

  /** xpl_component_destroy_with_type_id: the memory goes by the given
      type's callback, then a component still registered is removed under
      its own registration. */
  function ComponentDestroyed(s: Store, c: Ptr, t: TypeId): (Store, Disposal)
    requires Valid(s) && c != Null
  {
    if c in s.byPtr then
      assert Filed(s, c);
      (Removed(s, c, s.byPtr[c].typeId), DisposalFor(s, t))
    else (s, DisposalFor(s, t))
  }

  /** xpl_entity_component_destroy: remove under the registered type, then
      destroy, which finds nothing left to remove. */
  function EntityComponentDestroyed(s: Store, c: Ptr): (Store, Disposal)
    requires Valid(s) && c in s.byPtr
  {
    assert Filed(s, c);
    var t := ComponentType(s, c);
    (Removed(s, c, t), DisposalFor(s, t))
  }

  /** Destroying a registered component by either route has the same effect. */
  lemma DestroyRoutesAgree(s: Store, c: Ptr)
    requires Valid(s) && c in s.byPtr
    ensures ComponentDestroyed(s, c, ComponentType(s, c)) == EntityComponentDestroyed(s, c)
  {
  }

  /** The entity with its components of the types in ts unfiled from all
      three indexes, as a part-way point of entity_destroy's loop. */
  function Stripped(s: Store, e: Eid, ts: set<TypeId>): Store
    requires e in s.entities
  {
    s.(entities := s.entities[e := map t | t in s.entities[e] && t !in ts :: s.entities[e][t]],
       byPtr := map p | p in s.byPtr && !(s.byPtr[p].eid == e && s.byPtr[p].typeId in ts) :: s.byPtr[p],
       byType := map t | t in s.byType :: if t in ts then s.byType[t] - {e} else s.byType[t])
  }

  lemma StrippedNothing(s: Store, e: Eid)
    requires e in s.entities
    ensures Stripped(s, e, {}) == s
  {
    var x := Stripped(s, e, {});
    assert x.entities[e] == s.entities[e];
    assert x.entities == s.entities;
    assert x.byPtr == s.byPtr;
    assert x.byType == s.byType;
  }

  /** The three tables of one more pass of the loop, each shown on its own. */
  lemma StrippedStepEntities(s: Store, e: Eid, ts: set<TypeId>, t: TypeId)
    requires e in s.entities
    ensures var x := Stripped(s, e, ts);
      x.entities[e := x.entities[e] - {t}] == Stripped(s, e, ts + {t}).entities
  {
    var x := Stripped(s, e, ts);
    var z := Stripped(s, e, ts + {t});
    assert x.entities[e] - {t} == z.entities[e];
  }

  lemma StrippedStepByPtr(s: Store, e: Eid, ts: set<TypeId>, t: TypeId)
    requires Valid(s) && e in s.entities && t in s.entities[e]
    ensures Stripped(s, e, ts).byPtr - {s.entities[e][t]} == Stripped(s, e, ts + {t}).byPtr
  {
    var c := s.entities[e][t];
    var y := Stripped(s, e, ts).byPtr - {c};
    var z := Stripped(s, e, ts + {t}).byPtr;
    forall p | p in s.byPtr
      ensures p in y <==> p in z
    {
      if s.byPtr[p].eid == e && s.byPtr[p].typeId == t {
        assert Filed(s, p);
      }
    }
    assert y == z;
  }

  lemma StrippedStepByType(s: Store, e: Eid, ts: set<TypeId>, t: TypeId)
    requires e in s.entities && t in s.byType && t !in ts
    ensures var x := Stripped(s, e, ts);
      x.byType[t := x.byType[t] - {e}] == Stripped(s, e, ts + {t}).byType
  {
  }

  /** One more pass of the loop: removing the entity's component of type t. */
  lemma StrippedStep(s: Store, e: Eid, ts: set<TypeId>, t: TypeId)
    requires Valid(s) && e in s.entities && t in s.entities[e] && t !in ts
    ensures var x := Stripped(s, e, ts);
      && s.entities[e][t] in x.byPtr && x.byPtr[s.entities[e][t]] == Registration(e, t)
      && t in x.entities[e] && x.entities[e][t] == s.entities[e][t]
      && t in x.byType && t != 0
      && Removed(x, s.entities[e][t], t) == Stripped(s, e, ts + {t})
  {
    var c := s.entities[e][t];
    assert Filed(s, c);
    StrippedStepEntities(s, e, ts, t);
    StrippedStepByPtr(s, e, ts, t);
    StrippedStepByType(s, e, ts, t);
  }

  /** xpl_entity_destroy's effect: every component of the entity unfiled and the entity deleted. */
  function Destroyed(s: Store, e: Eid): Store
    requires e in s.entities
  {
    var x := Stripped(s, e, s.entities[e].Keys);
    x.(entities := x.entities - {e})
  }

  /** How each of the entity's components is given back. */
  ghost function Disposals(s: Store, e: Eid, ts: set<TypeId>): map<Ptr, Disposal>
  {
    map p | p in s.byPtr && s.byPtr[p].eid == e && s.byPtr[p].typeId in ts :: DisposalFor(s, s.byPtr[p].typeId)
  }

  /** One more pass of entity_destroy's loop adds the component of type t to what was given back. */
  lemma DisposalsStep(s: Store, e: Eid, ts: set<TypeId>, t: TypeId)
    requires Valid(s) && e in s.entities && t in s.entities[e] && t !in ts
    ensures Disposals(s, e, ts + {t}) == Disposals(s, e, ts)[s.entities[e][t] := DisposalFor(s, t)]
  {
    ByPtrOwned(s);
    var c := s.entities[e][t];
    var m1 := Disposals(s, e, ts);
    var m2 := Disposals(s, e, ts + {t});
    forall p | p in s.byPtr
      ensures p in m2 <==> p in m1 || p == c
    {
    }
    assert m2.Keys == m1.Keys + {c};
  }

  /** Destroying an entity whose components have all been removed already is
      the same as destroying it with them. */
  lemma DestroyEmptied(s: Store, e: Eid)
    requires e in s.entities
    ensures var x := Stripped(s, e, s.entities[e].Keys);
      Destroyed(x, e) == Destroyed(s, e)
  {
    var x := Stripped(s, e, s.entities[e].Keys);
    assert x.entities[e].Keys == {};
    StrippedNothing(x, e);
  }

  /** Destroying an entity gives back exactly the components filed under it. */
  lemma DestroyedGivesBack(s: Store, e: Eid)
    requires Valid(s) && e in s.entities
    ensures Destroyed(s, e).byPtr.Keys == s.byPtr.Keys - Disposals(s, e, s.entities[e].Keys).Keys
    ensures Disposals(s, e, s.entities[e].Keys).Keys <= s.byPtr.Keys
  {
    ByPtrOwned(s);
  }

  /** After xpl_entity_destroy nothing is filed under the entity: each of its
      components looks unregistered, other entities keep theirs, and the
      indexes agree. */
  lemma DestroyedForgets(s: Store, e: Eid)
    requires Valid(s) && e in s.entities
    ensures var s2 := Destroyed(s, e);
      && Valid(s2) && e !in s2.entities && s2.nextId == s.nextId
      && (forall t :: t in s.entities[e] ==> s.entities[e][t] !in s2.byPtr)
      && (forall x :: x in s.entities && x != e ==> x in s2.entities && s2.entities[x] == s.entities[x])
      && (forall t :: t in s2.byType ==> e !in s2.byType[t])
  {
    var s2 := Destroyed(s, e);
    var x := Stripped(s, e, s.entities[e].Keys);
    forall p | p in s2.byPtr
      ensures s2.byPtr[p].typeId != 0 && Filed(s2, p)
    {
      assert Filed(s, p);
    }
    forall y, u | y in s2.entities && u in s2.entities[y]
      ensures s2.entities[y][u] in s2.byPtr && s2.byPtr[s2.entities[y][u]] == Registration(y, u)
    {
      assert s.entities[y][u] in s.byPtr;
    }
    forall u, y | u in s2.byType && y in s2.byType[u]
      ensures s2.byType[u][y] in s2.byPtr && s2.byPtr[s2.byType[u][y]] == Registration(y, u)
    {
      assert s.byType[u][y] in s.byPtr;
    }
    forall t | t in s2.byType
      ensures e !in s2.byType[t]
    {
      if e in s.byType[t] {
        assert Filed(s, s.byType[t][e]);
      }
    }
  }

  /** The destination entity d of xpl_entity_transfer after it has been
      assigned the source entity's components of the types in ts. */
  function Adopted(dst: Store, d: Eid, src: Store, e: Eid, ts: set<TypeId>): Store
    requires d in dst.entities && e in src.entities
  {
    var moved := Moved(src, e, ts);
    dst.(entities := dst.entities[d := dst.entities[d] + moved],
         byPtr := dst.byPtr + map p | p in src.byPtr && src.byPtr[p].eid == e && src.byPtr[p].typeId in ts
                                      :: Registration(d, src.byPtr[p].typeId),
         byType := FiledUnder(dst.byType, d, moved))
  }

  /** The source entity's components of the types in ts. */
  function Moved(src: Store, e: Eid, ts: set<TypeId>): map<TypeId, Ptr>
    requires e in src.entities
  {
    map t | t in src.entities[e] && t in ts :: src.entities[e][t]
  }

  /** A by_type_id table with the moved components filed under entity d. */
  function FiledUnder(byType: map<TypeId, map<Eid, Ptr>>, d: Eid, moved: map<TypeId, Ptr>): map<TypeId, map<Eid, Ptr>>
  {
    map t | t in byType.Keys + moved.Keys ::
      if t in moved then (if t in byType then byType[t] else map[])[d := moved[t]] else byType[t]
  }

  lemma FiledUnderStep(byType: map<TypeId, map<Eid, Ptr>>, d: Eid, moved: map<TypeId, Ptr>, t: TypeId, c: Ptr)
    requires t !in moved
    ensures var x := FiledUnder(byType, d, moved);
      FiledUnder(byType, d, moved[t := c]) == x[t := (if t in x then x[t] else map[])[d := c]]
  {
    var x := FiledUnder(byType, d, moved);
    var z := FiledUnder(byType, d, moved[t := c]);
    assert z.Keys == x.Keys + {t};
  }

  lemma AdoptedNothing(dst: Store, d: Eid, src: Store, e: Eid)
    requires d in dst.entities && e in src.entities
    ensures Adopted(dst, d, src, e, {}) == dst
  {
    var x := Adopted(dst, d, src, e, {});
    assert x.entities[d] == dst.entities[d];
    assert x.entities == dst.entities;
    assert x.byPtr == dst.byPtr;
    assert x.byType == dst.byType;
  }

  /** What xpl_entity_transfer needs of the destination: a fresh entity d,
      and none of the moved pointers already registered there. */
  ghost predicate CanAdopt(dst: Store, d: Eid, src: Store, e: Eid)
  {
    && Valid(dst) && Valid(src) && d in dst.entities && dst.entities[d] == map[] && e in src.entities
    && (forall t :: t in src.entities[e] ==> src.entities[e][t] !in dst.byPtr)
  }

  /** No pointer moved by a transfer is already registered in the destination. */
  lemma MovedNotInDestination(dst: Store, d: Eid, src: Store, e: Eid)
    requires CanAdopt(dst, d, src, e)
    ensures forall p :: p in src.byPtr && src.byPtr[p].eid == e ==> p !in dst.byPtr
  {
    forall p | p in src.byPtr && src.byPtr[p].eid == e
      ensures p !in dst.byPtr
    {
      assert Filed(src, p);
    }
  }

  /** The three tables of one transfer pass, each shown on its own. */
  lemma AdoptedStepEntities(dst: Store, d: Eid, src: Store, e: Eid, ts: set<TypeId>, t: TypeId)
    requires d in dst.entities && e in src.entities && t in src.entities[e]
    ensures Assigned(Adopted(dst, d, src, e, ts), d, src.entities[e][t], t).entities
         == Adopted(dst, d, src, e, ts + {t}).entities
  {
    var c := src.entities[e][t];
    var m1 := Moved(src, e, ts);
    var m2 := Moved(src, e, ts + {t});
    var a := dst.entities[d];
    assert (a + m1)[t := c] == a + m2 by {
      assert m2 == m1[t := c];
    }
    var x := Adopted(dst, d, src, e, ts);
    assert x.entities == dst.entities[d := a + m1];
    assert Assigned(x, d, c, t).entities == dst.entities[d := (a + m1)[t := c]];
  }

  lemma AdoptedStepByPtr(dst: Store, d: Eid, src: Store, e: Eid, ts: set<TypeId>, t: TypeId, c: Ptr)
    requires d in dst.entities && e in src.entities && t in src.entities[e] && c == src.entities[e][t]
    requires c in src.byPtr && src.byPtr[c] == Registration(e, t)
    requires forall p :: p in src.byPtr && src.byPtr[p].eid == e && src.byPtr[p].typeId == t ==> p == c
    ensures Assigned(Adopted(dst, d, src, e, ts), d, c, t).byPtr == Adopted(dst, d, src, e, ts + {t}).byPtr
  {
    var m1 := map p | p in src.byPtr && src.byPtr[p].eid == e && src.byPtr[p].typeId in ts
                      :: Registration(d, src.byPtr[p].typeId);
    var m2 := map p | p in src.byPtr && src.byPtr[p].eid == e && src.byPtr[p].typeId in ts + {t}
                      :: Registration(d, src.byPtr[p].typeId);
    forall p | p in src.byPtr
      ensures p in m2 <==> p in m1 || p == c
    {
    }
    assert m2.Keys == m1.Keys + {c};
    assert m2 == m1[c := Registration(d, t)];
    assert (dst.byPtr + m1)[c := Registration(d, t)] == dst.byPtr + m2;
  }

  lemma AdoptedStepByType(dst: Store, d: Eid, src: Store, e: Eid, ts: set<TypeId>, t: TypeId)
    requires d in dst.entities && e in src.entities && t in src.entities[e] && t !in ts
    ensures Assigned(Adopted(dst, d, src, e, ts), d, src.entities[e][t], t).byType
         == Adopted(dst, d, src, e, ts + {t}).byType
  {
    assert Moved(src, e, ts + {t}) == Moved(src, e, ts)[t := src.entities[e][t]];
    FiledUnderStep(dst.byType, d, Moved(src, e, ts), t, src.entities[e][t]);
  }

  /** One more pass of the transfer loop: assigning the component of type t to d. */
  lemma AdoptedStep(dst: Store, d: Eid, src: Store, e: Eid, ts: set<TypeId>, t: TypeId)
    requires CanAdopt(dst, d, src, e) && t in src.entities[e] && t !in ts
    ensures var x := Adopted(dst, d, src, e, ts);
      && d in x.entities && src.entities[e][t] != Null && src.entities[e][t] !in x.byPtr && t != 0
      && t !in x.entities[d]
      && Assigned(x, d, src.entities[e][t], t) == Adopted(dst, d, src, e, ts + {t})
  {
    var c := src.entities[e][t];
    ByPtrOwned(src);
    assert src.byPtr[c] == Registration(e, t);
    AdoptedStepEntities(dst, d, src, e, ts, t);
    AdoptedStepByPtr(dst, d, src, e, ts, t, c);
    AdoptedStepByType(dst, d, src, e, ts, t);
  }

  /** Every pointer registered in the destination after the transfer is
      filed there. */
  lemma AdoptedFiled(dst: Store, d: Eid, src: Store, e: Eid)
    requires CanAdopt(dst, d, src, e)
    ensures var x := Adopted(dst, d, src, e, src.entities[e].Keys);
      forall p :: p in x.byPtr ==> x.byPtr[p].typeId != 0 && Filed(x, p)
  {
    var x := Adopted(dst, d, src, e, src.entities[e].Keys);
    ByPtrOwned(src);
    ByPtrOwned(dst);
    MovedNotInDestination(dst, d, src, e);
    assert x.entities[d] == src.entities[e];
    forall p | p in x.byPtr
      ensures x.byPtr[p].typeId != 0 && Filed(x, p)
    {
    }
  }

  /** Every entry of the destination's entity tables is registered to its
      entity and type after the transfer. */
  lemma AdoptedEntitiesRegistered(dst: Store, d: Eid, src: Store, e: Eid)
    requires CanAdopt(dst, d, src, e)
    ensures var x := Adopted(dst, d, src, e, src.entities[e].Keys);
      forall y, u :: y in x.entities && u in x.entities[y] ==>
        x.entities[y][u] in x.byPtr && x.byPtr[x.entities[y][u]] == Registration(y, u)
  {
    var all := src.entities[e].Keys;
    var x := Adopted(dst, d, src, e, all);
    ByPtrOwned(src);
    MovedNotInDestination(dst, d, src, e);
    assert x.entities[d] == src.entities[e];
    forall y, u | y in x.entities && u in x.entities[y]
      ensures x.entities[y][u] in x.byPtr && x.byPtr[x.entities[y][u]] == Registration(y, u)
    {
      if y == d {
        assert src.entities[e][u] in src.byPtr;
      } else {
        var p := dst.entities[y][u];
        assert p in dst.byPtr;
        assert !(p in src.byPtr && src.byPtr[p].eid == e);
      }
    }
  }

  /** Every entry of the destination's by_eid tables is registered to its
      entity and type after the transfer. */
  lemma AdoptedByTypeRegistered(dst: Store, d: Eid, src: Store, e: Eid)
    requires CanAdopt(dst, d, src, e)
    ensures var x := Adopted(dst, d, src, e, src.entities[e].Keys);
      forall u, y :: u in x.byType && y in x.byType[u] ==>
        x.byType[u][y] in x.byPtr && x.byPtr[x.byType[u][y]] == Registration(y, u)
  {
    var all := src.entities[e].Keys;
    var x := Adopted(dst, d, src, e, all);
    ByPtrOwned(src);
    ByTypeOwned(dst);
    MovedNotInDestination(dst, d, src, e);
    forall u, y | u in x.byType && y in x.byType[u]
      ensures x.byType[u][y] in x.byPtr && x.byPtr[x.byType[u][y]] == Registration(y, u)
    {
      if y != d {
        var p := dst.byType[u][y];
        assert x.byType[u][y] == p;
        assert p in dst.byPtr;
        assert !(p in src.byPtr && src.byPtr[p].eid == e);
      } else {
        assert u in Moved(src, e, all);
        assert x.byType[u][y] == src.entities[e][u];
        assert src.entities[e][u] in src.byPtr;
      }
    }
  }

  /** Moving one member from the pending set to the finished one keeps the
      two a partition of the whole. */
  lemma TakeOne<T>(pending: set<T>, done: set<T>, all: set<T>, x: T)
    requires pending !! done && pending + done == all && x in pending
    ensures x !in done && (pending - {x}) !! (done + {x}) && (pending - {x}) + (done + {x}) == all
  {
  }

  /** Handing a part of what is left over to what is given back keeps the
      two a partition of the whole. */
  lemma HandOver<T>(given: set<T>, left: set<T>, all: set<T>, part: set<T>)
    requires given !! left && given + left == all && part <= left
    ensures (given + part) !! (left - part) && (given + part) + (left - part) == all
  {
  }

  /** After a transfer the destination entity owns exactly the source
      entity's components, each filed under it; the destination's indexes
      agree and its other entities are untouched. */
  lemma AdoptedOwns(dst: Store, d: Eid, src: Store, e: Eid)
    requires CanAdopt(dst, d, src, e)
    ensures var x := Adopted(dst, d, src, e, src.entities[e].Keys);
      && Valid(x) && x.entities[d] == src.entities[e]
      && (forall t :: t in src.entities[e] ==>
            EntityWithComponent(x, src.entities[e][t]) == d && ComponentType(x, src.entities[e][t]) == t)
      && (forall y :: y in dst.entities && y != d ==> x.entities[y] == dst.entities[y])
  {
    var x := Adopted(dst, d, src, e, src.entities[e].Keys);
    assert Valid(x) by {
      AdoptedFiled(dst, d, src, e);
      AdoptedEntitiesRegistered(dst, d, src, e);
      AdoptedByTypeRegistered(dst, d, src, e);
    }
    assert x.entities[d] == src.entities[e];
    forall t | t in src.entities[e]
      ensures EntityWithComponent(x, src.entities[e][t]) == d && ComponentType(x, src.entities[e][t]) == t
    {
      var c := src.entities[e][t];
      assert c in src.byPtr && src.byPtr[c] == Registration(e, t);
      assert x.byPtr[c] == Registration(d, t);
    }
  }
}

/** The entity system context, a result set, and the loops over their tables. */
module EsObject {
  import opened Es

  /** An xpl_component_result_t. */
  datatype ResultEntry = ResultEntry(eid: Eid, component: Ptr)

  /** Some member of a non-empty set: the order in which the uthash tables
      are walked. */
  method Choose<T>(s: set<T>) returns (x: T)
    requires s != {}
    ensures x in s
  {
    x :| x in s;
  }

  /** `listed` holds each entity of `done` once, with its component from
      `table`. */
  ghost predicate Lists(listed: seq<ResultEntry>, table: map<Eid, Ptr>, done: set<Eid>)
  {
    && (forall i :: 0 <= i < |listed| ==> listed[i].eid in done && listed[i].eid in table && listed[i].component == table[listed[i].eid])
    && (forall i, j :: 0 <= i < j < |listed| ==> listed[i].eid != listed[j].eid)
  }

  lemma ListsStep(listed: seq<ResultEntry>, table: map<Eid, Ptr>, done: set<Eid>, x: Eid)
    requires Lists(listed, table, done) && x in table && x !in done
    ensures Lists(listed + [ResultEntry(x, table[x])], table, done + {x})
  {
  }

  /** Moving one element from the set still to do to the set done keeps
      them apart and their union, and counts one more done. */
  lemma MoveOne<T>(left: set<T>, done: set<T>, x: T)
    requires x in left && left !! done
    ensures (left - {x}) !! (done + {x}) && (left - {x}) + (done + {x}) == left + done
    ensures |done + {x}| == |done| + 1
  {
  }

  /** The result[size] sentinel. */
  const Sentinel: ResultEntry := ResultEntry(NoEntity, Null)

  /** An xpl_es_t: its entities, the component indexes and the allocators. */
  class EntitySystem {
    var nextId: int
    var entities: map<Eid, map<TypeId, Ptr>>
    var byPtr: map<Ptr, Registration>
    var byType: map<TypeId, map<Eid, Ptr>>
    var allocators: map<TypeId, Handlers>

    function Current(): Store
      reads this
    {
      Store(nextId, entities, byPtr, byType, allocators)
    }

    ghost predicate Valid()
      reads this
    {
      Es.Valid(Current())
    }

    /** xpl_es_new. */
    constructor ()
      ensures Valid() && Current() == Empty()
    {
      nextId := NoEntity + 1;
      entities, byPtr, byType, allocators := map[], map[], map[], map[];
    }

    /** xpl_entity_new. */
    method EntityNew() returns (e: Eid)
      requires Valid()
      modifies this
      ensures Valid() && (Current(), e) == Es.EntityNew(old(Current()))
    {
      EntityNewFresh(Current());
      e := nextId;
      nextId := nextId + 1;
      entities := entities[e := map[]];
    }

    /** xpl_component_assign_type_id. A duplicate assignment is reported
        and files nothing. */
    method Assign(e: Eid, c: Ptr, t: TypeId) returns (duplicate: bool)
      requires Valid() && e in entities && c != Null && c !in byPtr && t != 0
      modifies this
      ensures Valid()
      ensures duplicate <==> t in old(entities)[e]
      ensures Current() == if duplicate then old(Current()) else Assigned(old(Current()), e, c, t)
    {
      if Es.EntityComponent(Current(), e, t) != Null {
        return true;
      }
      AssignRegisters(Current(), e, c, t);
      duplicate := false;
      byPtr := byPtr[c := Registration(e, t)];
      var table := if t in byType then byType[t] else map[];
      byType := byType[t := table[e := c]];
      entities := entities[e := entities[e][t := c]];
    }

    /** xpl_component_remove_type_id: the entity argument is not consulted;
        the component's own registration names the entity. */
    method Remove(e: Eid, c: Ptr, t: TypeId) returns (r: Ptr)
      requires Removable(Current(), c, t)
      modifies this
      ensures Valid() && r == c
      ensures Current() == Removed(old(Current()), c, t)
    {
      RemoveUnfiles(Current(), c, t);
      var owner := byPtr[c].eid;
      byPtr := byPtr - {c};
      byType := byType[t := byType[t] - {owner}];
      entities := entities[owner := entities[owner] - {t}];
      r := c;
    }

    /** xpl_component_allocator_for_type_id. */
    method AllocatorFor(t: TypeId, h: Handlers)
      requires Valid()
      modifies this
      ensures Valid() && Current() == AllocatorSet(old(Current()), t, h)
    {
      allocators := allocators[t := h];
    }

    /** xpl_component_new_with_type_id: the memory, from the type's
        allocator or calloc, is the given pointer `memory`. */
    method ComponentNew(e: Eid, t: TypeId, memory: Ptr) returns (c: Ptr, duplicate: bool)
      requires Valid() && e in entities && memory != Null && memory !in byPtr && t != 0
      modifies this
      ensures Valid() && c == memory
      ensures duplicate <==> t in old(entities)[e]
      ensures Current() == if duplicate then old(Current()) else Assigned(old(Current()), e, c, t)
    {
      c := memory;
      duplicate := Assign(e, c, t);
    }

    /** xpl_component_destroy_with_type_id. */
    method ComponentDestroy(c: Ptr, t: TypeId) returns (how: Disposal)
      requires Valid() && c != Null
      modifies this
      ensures Valid() && (Current(), how) == ComponentDestroyed(old(Current()), c, t)
    {
      how := DisposalFor(Current(), t);
      if c in byPtr {
        assert Filed(Current(), c);
        var _ := Remove(byPtr[c].eid, c, byPtr[c].typeId);
      }
    }

    /** xpl_entity_component_destroy. */
    method EntityComponentDestroy(e: Eid, c: Ptr) returns (how: Disposal)
      requires Valid() && c in byPtr
      modifies this
      ensures Valid() && (Current(), how) == EntityComponentDestroyed(old(Current()), c)
    {
      assert Filed(Current(), c);
      var t := ComponentType(Current(), c);
      var r := Remove(e, c, t);
      how := ComponentDestroy(r, t);
    }

    /** xpl_entity_destroy: each component is destroyed, then the entity is
        deleted. The map tells how each component was given back. */
    method EntityDestroy(e: Eid) returns (disposed: map<Ptr, Disposal>)
      requires Valid() && e in entities
      modifies this
      ensures Valid() && Current() == Destroyed(old(Current()), e)
      ensures disposed == Disposals(old(Current()), e, old(entities)[e].Keys)
    {
      ghost var s0 := Current();
      ghost var all := entities[e].Keys;
      var ts := entities[e].Keys;
      ghost var done: set<TypeId> := {};
      disposed := map[];
      StrippedNothing(s0, e);
      while ts != {}
        invariant ts !! done && ts + done == all
        invariant Valid() && Current() == Stripped(s0, e, done)
        invariant disposed == Disposals(s0, e, done)
        decreases ts
      {
        var t := Choose(ts);
        StrippedStep(s0, e, done, t);
        DisposalsStep(s0, e, done, t);
        var c := entities[e][t];
        var how := EntityComponentDestroy(e, c);
        disposed := disposed[c := how];
        ts, done := ts - {t}, done + {t};
      }
      entities := entities - {e};
      DestroyedForgets(s0, e);
    }

    /** xpl_entity_transfer: a new entity in dest receives each component,
        removed here and assigned there without reallocation, and the
        emptied source entity is destroyed. */
    method Transfer(e: Eid, dest: EntitySystem) returns (d: Eid)
      requires dest != this && Valid() && dest.Valid() && e in entities
      requires forall t :: t in entities[e] ==> entities[e][t] !in dest.byPtr
      modifies this, dest
      ensures Valid() && dest.Valid()
      ensures d == old(dest.nextId)
      ensures dest.Current() == Adopted(Es.EntityNew(old(dest.Current())).0, d, old(Current()), e, old(entities)[e].Keys)
      ensures Current() == Destroyed(old(Current()), e)
    {
      EntityNewFresh(dest.Current());
      d := dest.EntityNew();
      ghost var s0 := Current();
      MoveAll(e, dest, d, s0, dest.Current());
      DestroyEmptied(s0, e);
      var none := EntityDestroy(e);
    }

    /** The transfer loop: every component of e moves to d in dest. */
    method MoveAll(e: Eid, dest: EntitySystem, d: Eid, ghost s0: Store, ghost d0: Store)
      requires dest != this && CanAdopt(d0, d, s0, e)
      requires Current() == s0 && dest.Current() == d0
      modifies this, dest
      ensures Valid() && Current() == Stripped(s0, e, s0.entities[e].Keys)
      ensures dest.Valid() && dest.Current() == Adopted(d0, d, s0, e, s0.entities[e].Keys)
    {
      ghost var all := entities[e].Keys;
      var ts := entities[e].Keys;
      ghost var done: set<TypeId> := {};
      StrippedNothing(s0, e);
      AdoptedNothing(d0, d, s0, e);
      while ts != {}
        invariant ts !! done && ts + done == all
        invariant Moving(e, dest, d, s0, d0, done)
        decreases ts
      {
        var t := Choose(ts);
        TakeOne(ts, done, all, t);
        MoveOne(e, t, dest, d, s0, d0, done);
        ts, done := ts - {t}, done + {t};
      }
    }

    /** Part-way through the transfer loop: the components of the types in
        done have moved from e here to d in dest. */
    ghost predicate Moving(e: Eid, dest: EntitySystem, d: Eid, s0: Store, d0: Store, done: set<TypeId>)
      reads this, dest
    {
      && dest != this && CanAdopt(d0, d, s0, e)
      && Valid() && Current() == Stripped(s0, e, done)
      && dest.Valid() && dest.Current() == Adopted(d0, d, s0, e, done)
    }

    /** One pass of the transfer loop: the component of type t is removed
        here and assigned to d in dest. */
    method MoveOne(e: Eid, t: TypeId, dest: EntitySystem, d: Eid, ghost s0: Store, ghost d0: Store, ghost done: set<TypeId>)
      requires Moving(e, dest, d, s0, d0, done) && t in s0.entities[e] && t !in done
      modifies this, dest
      ensures Moving(e, dest, d, s0, d0, done + {t})
    {
      StrippedStep(s0, e, done, t);
      AdoptedStep(d0, d, s0, e, done, t);
      var c := entities[e][t];
      ghost var there := dest.Current();
      var data := Remove(e, c, t);
      assert dest.Current() == there;
      var duplicate := dest.Assign(d, data, t);
    }

    /** xpl_component_with_type_id: some component of the type and its
        entity, or NULL and NONE. */
    method ComponentWithType(t: TypeId) returns (c: Ptr, e: Eid)
      requires Valid()
      ensures t in byType && byType[t] != map[] ==> e in byType[t] && c == byType[t][e] && ComponentType(Current(), c) == t
      ensures !(t in byType && byType[t] != map[]) ==> c == Null && e == NoEntity
    {
      if t in byType && byType[t] != map[] {
        e := Choose(byType[t].Keys);
        c := byType[t][e];
        return;
      }
      c, e := Null, NoEntity;
    }

    /** xpl_es_destroy: every entity is destroyed; the by_eid tables are then
        all empty and are dropped with the allocators. */
    method Destroy() returns (disposed: map<Ptr, Disposal>)
      requires Valid()
      modifies this
      ensures entities == map[] && byPtr == map[] && byType == map[] && allocators == map[]
      ensures disposed.Keys == old(byPtr).Keys
    {
      ghost var s0 := Current();
      disposed := map[];
      while entities != map[]
        invariant Valid()
        invariant disposed.Keys !! byPtr.Keys && disposed.Keys + byPtr.Keys == s0.byPtr.Keys
        decreases entities.Keys
      {
        var e := Choose(entities.Keys);
        DestroyedGivesBack(Current(), e);
        DestroyedForgets(Current(), e);
        HandOver(disposed.Keys, byPtr.Keys, s0.byPtr.Keys, Disposals(Current(), e, entities[e].Keys).Keys);
        var gone := EntityDestroy(e);
        disposed := disposed + gone;
      }
      NoEntitiesNoComponents(Current());
      byType := map[];
      allocators := map[];
    }
  }

  /** An xpl_component_result_set_t. */
  class ResultSet {
    var result: array<ResultEntry>
    var size: nat
    var maxSize: nat

    /** The array holds max_size entries, or one more once it has grown. */
    ghost predicate Valid()
      reads this
    {
      0 < maxSize <= result.Length <= maxSize + 1
    }

    /** xpl_component_result_set_new: room for two results. */
    constructor ()
      ensures Valid() && size == 0 && maxSize == 2 && result.Length == 2
    {
      result := new ResultEntry[2](_ => Sentinel);
      size, maxSize := 0, 2;
    }

    /** The realloc when the set is full: max_size grows by a factor of 2.75,
        truncated, and one extra slot is kept for the sentinel. */
    method Grow()
      requires Valid()
      modifies this
      ensures Valid() && maxSize == old(maxSize) * 11 / 4 && maxSize > old(maxSize)
      ensures result.Length == maxSize + 1 && old(result.Length) <= result.Length
      ensures result[..old(result.Length)] == old(result[..])
      ensures size == old(size) && fresh(result)
    {
      var bigger := maxSize * 11 / 4;
      var previous := result;
      result := new ResultEntry[bigger + 1](i reads previous => if 0 <= i < previous.Length then previous[i] else Sentinel);
      maxSize := bigger;
    }

    /** One pass of the fill loop: the entry goes at result[size], and a
        set that has become full grows. */
    method Append(entry: ResultEntry)
      requires Valid() && size < maxSize
      modifies this, result
      ensures Valid() && size == old(size) + 1 && size < maxSize
      ensures result[..size] == old(result[..size]) + [entry]
      ensures result == old(result) || fresh(result)
    {
      result[size] := entry;
      size := size + 1;
      ghost var filled := result[..size];
      if size == maxSize {
        Grow();
      }
      assert result[..size] == filled;
    }

    /** xpl_components_with_type_id: every component of the type, with its
        entity, each once, then the NONE/NULL sentinel at result[size]. */
    method ComponentsWithType(es: EntitySystem, t: TypeId) returns (n: nat)
      requires Valid()
      modifies this, result
      ensures Valid() && n == size < result.Length
      ensures var table := if t in es.byType then es.byType[t] else map[];
        size == |table.Keys| && Lists(result[..size], table, table.Keys)
      ensures result[size] == Sentinel
    {
      n := Fill(if t in es.byType then es.byType[t] else map[]);
    }

    /** The fill loop over the type's by_eid table. */
    method Fill(table: map<Eid, Ptr>) returns (n: nat)
      requires Valid()
      modifies this, result
      ensures Valid() && n == size < result.Length
      ensures size == |table.Keys| && Lists(result[..size], table, table.Keys)
      ensures result[size] == Sentinel
    {
      size := 0;
      var left := table.Keys;
      ghost var done: set<Eid> := {};
      ghost var listed: seq<ResultEntry> := [];
      while left != {}
        invariant Valid() && size < maxSize
        invariant result == old(result) || fresh(result)
        invariant result[..size] == listed
        invariant left !! done && left + done == table.Keys && size == |done|
        invariant Lists(listed, table, done)
        decreases left
      {
        var x := Choose(left);
        ListsStep(listed, table, done, x);
        MoveOne(left, done, x);
        Append(ResultEntry(x, table[x]));
        listed := listed + [ResultEntry(x, table[x])];
        left := left - {x};
        done := done + {x};
      }
      assert done == table.Keys;
      result[size] := Sentinel;
      assert result[..size] == listed;
      n := size;
    }
  }
}
