/** Compilation up to the dependency graph (awo/compiler/schema.go) and the order in which
    awo/generator/generator.go emits migration files. */
module Generator {
  import opened Options
  import opened Names
  import opened Digraph
  import opened SchemaDefs
  import opened CG = CompilerGraph

  type ByName = map<string, EntitySchema>

  datatype CompiledSchema = CompiledSchema(entities: seq<EntitySchema>, byName: ByName, order: seq<string>)

  datatype MigrationFile =
    | Infrastructure(number: int)
    | EntityFile(number: int, entity: string, sql: string)

  ghost predicate DistinctEntities(entities: seq<EntitySchema>)
  {
    forall i, j :: 0 <= i < j < |entities| ==> entities[i].qualifiedName != entities[j].qualifiedName
  }

  ghost predicate Indexed(entities: seq<EntitySchema>, byName: ByName)
  {
    && byName.Keys == NamesOf(entities)
    && forall es :: es in entities ==> es.qualifiedName in byName && byName[es.qualifiedName] == es
  }

  /** What compile guarantees about the schema it returns. */
  ghost predicate Accepted(s: CompiledSchema)
  {
    && Indexed(s.entities, s.byName)
    && NoOrphans(s.entities, NamesOf(s.entities))
    && DepsFirst(EntityGraph(s.entities, NamesOf(s.entities)), s.order) && Elems(s.order) == NamesOf(s.entities)
  }

  /** The loops that fill ByName and the set of names (schema.go:336-340 and 379-382). */
  method IndexAll(defs: seq<EntitySchema>) returns (byName: ByName, names: set<string>)
    requires DistinctEntities(defs)
    ensures Indexed(defs, byName) && names == NamesOf(defs)
  {
    byName, names := map[], {};
    for i := 0 to |defs|
      invariant Indexed(defs[..i], byName) && names == NamesOf(defs[..i])
    {
      assert defs[..i + 1] == defs[..i] + [defs[i]];
      NamesOfAppend(defs[..i], defs[i]);
      assert forall es :: es in defs[..i] ==> es.qualifiedName != defs[i].qualifiedName;
      byName, names := byName[defs[i].qualifiedName := defs[i]], names + {defs[i].qualifiedName};
    }
    assert defs[..|defs|] == defs;
  }

  /** Phases 1 and 2.7 of compile. */
  method Compile(defs: seq<EntitySchema>) returns (r: Option<CompiledSchema>)
    requires DistinctEntities(defs)
    ensures r.Some? <==> NoOrphans(defs, NamesOf(defs)) && Acyclic(EntityGraph(defs, NamesOf(defs)))
    ensures r.Some? ==> r.value.entities == defs && Accepted(r.value)
  {
    var byName, names := IndexAll(defs);
    var g, ds := BuildDependencyGraph(defs, names);
    if ds != [] { return None; }
    r := Some(CompiledSchema(defs, byName, g.topologicalOrder.value));
  }

  /** The system entities among `names`, in that order. */
  ghost function SystemOnly(byName: ByName, names: seq<string>): seq<string>
  {
    if names == [] then []
    else
      var init, last := names[..|names| - 1], names[|names| - 1];
      if last in byName && byName[last].isSystem then SystemOnly(byName, init) + [last] else SystemOnly(byName, init)
  }

  lemma SystemOnlyAppend(byName: ByName, names: seq<string>, n: string)
    ensures SystemOnly(byName, names + [n]) ==
            if n in byName && byName[n].isSystem then SystemOnly(byName, names) + [n] else SystemOnly(byName, names)
  {
    assert (names + [n])[..|names|] == names;
  }

  lemma {:induction false} SystemOnlyMembers(byName: ByName, names: seq<string>)
    requires Distinct(names)
    ensures Distinct(SystemOnly(byName, names))
    ensures forall n :: n in SystemOnly(byName, names) <==> n in names && n in byName && byName[n].isSystem
  {
    if names != [] {
      var init, last := names[..|names| - 1], names[|names| - 1];
      assert names == init + [last];
      assert last !in init;
      SystemOnlyMembers(byName, init);
    }
  }

  lemma {:induction false} SystemOnlyPrefix(byName: ByName, names: seq<string>, k: nat)
    requires k <= |names|
    ensures SystemOnly(byName, names[..k]) <= SystemOnly(byName, names)
  {
    if k == |names| {
      assert names[..k] == names;
    } else {
      var init := names[..|names| - 1];
      SystemOnlyPrefix(byName, init, k);
      assert init[..k] == names[..k];
    }
  }

  /** Filtering keeps what stood before in front. */
  lemma FilterKeepsOrder(byName: ByName, order: seq<string>, k: nat, i: nat)
    requires Distinct(order) && k < |order| && order[k] in byName && byName[order[k]].isSystem
    requires i < |SystemOnly(byName, order)| && SystemOnly(byName, order)[i] == order[k]
    ensures SystemOnly(byName, order)[..i] == SystemOnly(byName, order[..k])
  {
    var emitted, before := SystemOnly(byName, order), SystemOnly(byName, order[..k]);
    SystemOnlyMembers(byName, order);
    assert order[..k + 1] == order[..k] + [order[k]];
    SystemOnlyAppend(byName, order[..k], order[k]);
    SystemOnlyPrefix(byName, order, k + 1);
    assert before + [order[k]] <= emitted;
    assert emitted[|before|] == order[k];
  }

  lemma IndexedEntity(entities: seq<EntitySchema>, byName: ByName, n: string)
    requires Indexed(entities, byName) && n in byName
    ensures byName[n] in entities && byName[n].qualifiedName == n
  { }

  lemma TargetPlacedEarlier(s: CompiledSchema, e: string, t: string) returns (k: nat)
    requires Accepted(s) && e in s.byName && t in Targets(s.byName[e]) && t != e
    ensures k < |s.order| && s.order[k] == e && t in s.order[..k]
  {
    var names := NamesOf(s.entities);
    IndexedEntity(s.entities, s.byName, e);
    assert e in Elems(s.order);
    k :| 0 <= k < |s.order| && s.order[k] == e;
    assert Refers(s.entities, e, t);
    RefersIff(s.entities, e, t);
    assert t in names;
    assert t in EntityGraph(s.entities, names)[e];
    assert t in Elems(s.order[..k]);
  }

  /** In the emitted order every system target of an entity, other than itself, comes earlier. */
  lemma TargetsEmittedEarlier(s: CompiledSchema, i: nat, t: string)
    requires Accepted(s)
    requires i < |SystemOnly(s.byName, s.order)|
    requires var e := SystemOnly(s.byName, s.order)[i]; e in s.byName && t in Targets(s.byName[e]) && t != e
    requires t in s.byName && s.byName[t].isSystem
    ensures t in SystemOnly(s.byName, s.order)[..i]
  {
    var e := SystemOnly(s.byName, s.order)[i];
    SystemOnlyMembers(s.byName, s.order);
    assert e in SystemOnly(s.byName, s.order);
    var k := TargetPlacedEarlier(s, e, t);
    FilterKeepsOrder(s.byName, s.order, k, i);
    SystemOnlyMembers(s.byName, s.order[..k]);
  }

  /** The system entities in topological order (generator.go:59-64). */
  method InGraphOrder(byName: ByName, order: seq<string>) returns (ordered: seq<EntitySchema>)
    ensures ordered == Picked(byName, SystemOnly(byName, order))
  {
    ordered := [];
    for i := 0 to |order|
      invariant ordered == Picked(byName, SystemOnly(byName, order[..i]))
    {
      var name := order[i];
      assert order[..i + 1] == order[..i] + [name];
      SystemOnlyAppend(byName, order[..i], name);
      if name in byName && byName[name].isSystem {
        PickOne(byName, SystemOnly(byName, order[..i]), name);
        ordered := ordered + [byName[name]];
      }
    }
    assert order[..|order|] == order;
  }

  /** The system entities whose names are not in `skip`, in order. */
  ghost function Remaining(entities: seq<EntitySchema>, skip: set<string>): seq<EntitySchema>
  {
    if entities == [] then []
    else
      var rest, last := Remaining(entities[..|entities| - 1], skip), entities[|entities| - 1];
      if last.isSystem && last.qualifiedName !in skip then rest + [last] else rest
  }

  /** The entities Generate writes: those of the topological order, then what it left out. */
  ghost function Emitted(s: CompiledSchema): seq<EntitySchema>
  {
    var inOrder := Picked(s.byName, SystemOnly(s.byName, s.order));
    inOrder + Remaining(s.entities, NamesOf(inOrder))
  }

  method AddRemaining(entities: seq<EntitySchema>, skip: set<string>, ordered: seq<EntitySchema>) returns (r: seq<EntitySchema>)
    ensures r == ordered + Remaining(entities, skip)
  {
    r := ordered;
    for i := 0 to |entities|
      invariant r == ordered + Remaining(entities[..i], skip)
    {
      assert entities[..i + 1][..i] == entities[..i];
      if entities[i].isSystem && entities[i].qualifiedName !in skip { r := r + [entities[i]]; }
    }
    assert entities[..|entities|] == entities;
  }

  /** Which entities Generate writes, and in which order (generator.go:56-81), for any schema. */
  method OrderEntities(s: CompiledSchema) returns (ordered: seq<EntitySchema>)
    ensures ordered == Emitted(s)
  {
    if s.order != [] {
      ordered := InGraphOrder(s.byName, s.order);
      var inOrder := set es | es in ordered :: es.qualifiedName;
      ordered := AddRemaining(s.entities, inOrder, ordered);
    } else {
      ordered := AddRemaining(s.entities, {}, []);
      assert NamesOf([]) == {};
    }
  }

  lemma {:induction false} RemainingMembers(entities: seq<EntitySchema>, skip: set<string>)
    ensures forall es :: es in Remaining(entities, skip) <==> es in entities && es.isSystem && es.qualifiedName !in skip
  {
    if entities != [] {
      assert entities == entities[..|entities| - 1] + [entities[|entities| - 1]];
      RemainingMembers(entities[..|entities| - 1], skip);
    }
  }

  lemma {:induction false} PickedSystem(byName: ByName, names: seq<string>)
    ensures forall es :: es in Picked(byName, SystemOnly(byName, names)) ==> es.isSystem
  {
    if names != [] {
      var init, last := names[..|names| - 1], names[|names| - 1];
      PickedSystem(byName, init);
      if last in byName && byName[last].isSystem { PickOne(byName, SystemOnly(byName, init), last); }
    }
  }

  /** For any schema, whatever its order misses: only system entities are written, and every system
      entity's name is. */
  lemma EmittedCovers(s: CompiledSchema)
    ensures forall es :: es in Emitted(s) ==> es.isSystem
    ensures forall es :: es in s.entities && es.isSystem ==> es.qualifiedName in NamesOf(Emitted(s))
  {
    var inOrder := Picked(s.byName, SystemOnly(s.byName, s.order));
    PickedSystem(s.byName, s.order);
    RemainingMembers(s.entities, NamesOf(inOrder));
    assert forall es :: es in Emitted(s) <==> es in inOrder || es in Remaining(s.entities, NamesOf(inOrder));
    forall es | es in s.entities && es.isSystem ensures es.qualifiedName in NamesOf(Emitted(s)) {
      if es.qualifiedName in NamesOf(inOrder) {
        var x :| x in inOrder && x.qualifiedName == es.qualifiedName;
        assert x in Emitted(s);
      } else {
        assert es in Emitted(s);
      }
    }
  }

  /** For a schema that compile accepts neither the defensive loop nor the branch without an order
      adds anything. */
  lemma AcceptedInOrder(s: CompiledSchema)
    requires Accepted(s)
    ensures Emitted(s) == Picked(s.byName, SystemOnly(s.byName, s.order))
  {
    var inOrder := Picked(s.byName, SystemOnly(s.byName, s.order));
    NothingMissing(s);
    RemainingMembers(s.entities, NamesOf(inOrder));
    NoElems(Remaining(s.entities, NamesOf(inOrder)));
    assert inOrder + [] == inOrder;
  }

  /** Every system entity of an accepted schema is reached through the topological order. */
  lemma NothingMissing(s: CompiledSchema)
    requires Accepted(s)
    ensures forall es :: es in s.entities && es.isSystem ==> es in Picked(s.byName, SystemOnly(s.byName, s.order))
  {
    var emitted := SystemOnly(s.byName, s.order);
    SystemOnlyMembers(s.byName, s.order);
    assert Elems(emitted) <= s.byName.Keys;
    PickedFacts(s.byName, emitted);
    forall es | es in s.entities && es.isSystem ensures es in Picked(s.byName, emitted) {
      assert es.qualifiedName in Elems(s.order);
      assert es.qualifiedName in emitted;
      var i :| 0 <= i < |emitted| && emitted[i] == es.qualifiedName;
      assert Picked(s.byName, emitted)[i] == es;
    }
  }

  /** The file list for an ordered list of entities (generator.go:83-103). */
  method EmitFiles(ordered: seq<EntitySchema>, first: int, ddl: EntitySchema -> Option<string>) returns (r: Option<seq<MigrationFile>>)
    ensures r.Some? <==> forall i :: 0 <= i < |ordered| ==> ddl(ordered[i]).Some?
    ensures r.Some? ==>
              && |r.value| == |ordered| + 1 && r.value[0] == Infrastructure(first)
              && forall i :: 0 <= i < |ordered| ==>
                   r.value[i + 1] == EntityFile(first + 1 + i, ordered[i].qualifiedName, ddl(ordered[i]).value)
  {
    var files, number := [Infrastructure(first)], first + 1;
    for i := 0 to |ordered|
      invariant |files| == i + 1 && number == first + 1 + i && files[0] == Infrastructure(first)
      invariant forall k :: 0 <= k < i ==>
                  ddl(ordered[k]).Some? && files[k + 1] == EntityFile(first + 1 + k, ordered[k].qualifiedName, ddl(ordered[k]).value)
    {
      var sql := ddl(ordered[i]);
      if sql.None? { return None; }
      files, number := files + [EntityFile(number, ordered[i].qualifiedName, sql.value)], number + 1;
    }
    r := Some(files);
  }

  /** The plan: infrastructure first, then one file for each entity in emitted order, numbered
      consecutively. It fails only if some entity's DDL does. */
  method Generate(s: CompiledSchema, startSeq: int, ddl: EntitySchema -> Option<string>) returns (r: Option<seq<MigrationFile>>)
    ensures var emitted := Emitted(s);
            var first := if startSeq <= 0 then 1 else startSeq;
            && (r.Some? <==> forall i :: 0 <= i < |emitted| ==> ddl(emitted[i]).Some?)
            && (r.Some? ==>
                  && |r.value| == |emitted| + 1 && r.value[0] == Infrastructure(first)
                  && forall i :: 0 <= i < |emitted| ==>
                       r.value[i + 1] == EntityFile(first + 1 + i, emitted[i].qualifiedName, ddl(emitted[i]).value))
  {
    var ordered := OrderEntities(s);
    r := EmitFiles(ordered, if startSeq <= 0 then 1 else startSeq, ddl);
  }

  /** Where an accepted schema's emitted entities come from. */
  lemma EmittedAt(s: CompiledSchema)
    requires Accepted(s)
    ensures var names := SystemOnly(s.byName, s.order);
            && Distinct(names) && |Emitted(s)| == |names|
            && forall i :: 0 <= i < |names| ==>
                 names[i] in s.byName && Emitted(s)[i] == s.byName[names[i]] && Emitted(s)[i].qualifiedName == names[i]
  {
    var names := SystemOnly(s.byName, s.order);
    AcceptedInOrder(s);
    SystemOnlyMembers(s.byName, s.order);
    PickedFacts(s.byName, names);
    forall i | 0 <= i < |names| ensures names[i] in s.byName && Emitted(s)[i].qualifiedName == names[i] {
      assert names[i] in names;
      IndexedEntity(s.entities, s.byName, names[i]);
    }
  }

  /** From an accepted schema every system entity is emitted once, and no other. */
  lemma EmittedOnce(s: CompiledSchema)
    requires Accepted(s)
    ensures DistinctEntities(Emitted(s))
    ensures forall es :: es in Emitted(s) <==> es in s.entities && es.isSystem
  {
    EmittedAt(s);
    AcceptedInOrder(s);
    SystemOnlyMembers(s.byName, s.order);
    NothingMissing(s);
    forall es | es in Picked(s.byName, SystemOnly(s.byName, s.order)) ensures es in s.entities && es.isSystem {
      PickedIsEntity(s.entities, s.byName, SystemOnly(s.byName, s.order), es);
    }
  }

  /** In the emitted order every system entity that an entity refers to, other than itself, comes earlier. */
  lemma ReferredEmittedEarlier(s: CompiledSchema, i: nat, t: EntitySchema)
    requires Accepted(s) && i < |Emitted(s)| && t in s.entities && t.isSystem
    requires exists via :: Declares(Emitted(s)[i], via, t.qualifiedName)
    requires t.qualifiedName != Emitted(s)[i].qualifiedName
    ensures t in Emitted(s)[..i]
  {
    var names := SystemOnly(s.byName, s.order);
    EmittedAt(s);
    ReferencesDeclared(Emitted(s)[i]);
    TargetsEmittedEarlier(s, i, t.qualifiedName);
    var j :| 0 <= j < i && names[j] == t.qualifiedName;
    assert Emitted(s)[..i][j] == t;
  }

  lemma PickedIsEntity(entities: seq<EntitySchema>, byName: ByName, emitted: seq<string>, es: EntitySchema)
    requires Indexed(entities, byName) && forall n :: n in emitted ==> n in byName && byName[n].isSystem
    requires es in Picked(byName, emitted)
    ensures es in entities && es.isSystem
  {
    PickedFacts(byName, emitted);
    var i :| 0 <= i < |emitted| && Picked(byName, emitted)[i] == es;
    assert emitted[i] in emitted;
    IndexedEntity(entities, byName, emitted[i]);
  }
}
