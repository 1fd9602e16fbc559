/** The parts of a compiled entity schema that the dependency graphs read
    (awo/compiler/schema.go, awo/def/field.go, awo/def/edge.go). */
module SchemaDefs {

  datatype FieldType = Link | LinkList | Scalar

  datatype FieldDef = FieldDef(name: string, fieldType: FieldType, linkTarget: string)

  datatype EdgeDef = EdgeDef(name: string, target: string)

  datatype EntitySchema = EntitySchema(
    qualifiedName: string, isSystem: bool, fields: seq<FieldDef>, edges: seq<EdgeDef>)

  predicate IsLink(f: FieldDef)
  {
    f.fieldType != Scalar && f.linkTarget != ""
  }

  // ---------------------------------------------------------------------------
  // What the declarations say, in their own fields.

  ghost predicate LinksTo(f: FieldDef, target: string)
  {
    f.fieldType in {Link, LinkList} && f.linkTarget == target && target != ""
  }

  /** The entity has a link field, or an edge, that is called `via` and names `target`. */
  ghost predicate Declares(es: EntitySchema, via: string, target: string)
  {
    || (exists f :: f in es.fields && f.name == via && LinksTo(f, target))
    || (exists e :: e in es.edges && e.name == via && e.target == target && target != "")
  }

  ghost predicate DeclaredBy(schemas: seq<EntitySchema>, entity: string, via: string, target: string)
  {
    exists es :: es in schemas && es.qualifiedName == entity && Declares(es, via, target)
  }

  // ---------------------------------------------------------------------------
  // The same as sets.

  datatype Reference = Reference(via: string, target: string)

  ghost function FieldReferences(fields: seq<FieldDef>): set<Reference>
  {
    set f | f in fields && f.fieldType in {Link, LinkList} && f.linkTarget != "" :: Reference(f.name, f.linkTarget)
  }

  ghost function EdgeReferences(edges: seq<EdgeDef>): set<Reference>
  {
    set e | e in edges && e.target != "" :: Reference(e.name, e.target)
  }

  ghost function References(es: EntitySchema): set<Reference>
  {
    FieldReferences(es.fields) + EdgeReferences(es.edges)
  }

  /** The names an entity links to through its fields. */
  ghost function FieldTargets(fields: seq<FieldDef>): set<string>
  {
    set f | f in fields && f.fieldType in {Link, LinkList} && f.linkTarget != "" :: f.linkTarget
  }

  ghost function EdgeTargets(edges: seq<EdgeDef>): set<string>
  {
    set e | e in edges && e.target != "" :: e.target
  }

  ghost function Targets(es: EntitySchema): set<string>
  {
    FieldTargets(es.fields) + EdgeTargets(es.edges)
  }

  ghost function NamesOf(schemas: seq<EntitySchema>): set<string>
  {
    set es | es in schemas :: es.qualifiedName
  }

  lemma ReferencesDeclared(es: EntitySchema)
    ensures forall via, t :: Reference(via, t) in References(es) <==> Declares(es, via, t)
    ensures forall t :: t in Targets(es) <==> exists via :: Declares(es, via, t)
  {
    forall via, t ensures Reference(via, t) in References(es) <==> Declares(es, via, t) {
      if f :| f in es.fields && f.name == via && LinksTo(f, t) {
        assert Reference(f.name, f.linkTarget) in FieldReferences(es.fields);
      }
    }
    forall t | t in Targets(es) ensures exists via :: Declares(es, via, t) {
      if f :| f in es.fields && LinksTo(f, t) {
        assert Declares(es, f.name, t);
      } else {
        var e :| e in es.edges && e.target == t;
        assert Declares(es, e.name, t);
      }
    }
  }

  lemma FieldTargetsAppend(fields: seq<FieldDef>, f: FieldDef)
    ensures FieldTargets(fields + [f]) == if IsLink(f) then FieldTargets(fields) + {f.linkTarget} else FieldTargets(fields)
    ensures FieldReferences(fields + [f]) ==
            if IsLink(f) then FieldReferences(fields) + {Reference(f.name, f.linkTarget)} else FieldReferences(fields)
  {
    assert forall x :: x in fields + [f] <==> x in fields || x == f;
  }

  lemma EdgeTargetsAppend(edges: seq<EdgeDef>, e: EdgeDef)
    ensures EdgeTargets(edges + [e]) == if e.target != "" then EdgeTargets(edges) + {e.target} else EdgeTargets(edges)
    ensures EdgeReferences(edges + [e]) ==
            if e.target != "" then EdgeReferences(edges) + {Reference(e.name, e.target)} else EdgeReferences(edges)
  {
    assert forall x :: x in edges + [e] <==> x in edges || x == e;
  }

  lemma NamesOfAppend(schemas: seq<EntitySchema>, es: EntitySchema)
    ensures NamesOf(schemas + [es]) == NamesOf(schemas) + {es.qualifiedName}
  {
    assert forall x :: x in schemas + [es] <==> x in schemas || x == es;
  }
}
