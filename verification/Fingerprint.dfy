/** The stream a schema fingerprint hashes: awo/compiler/fingerprint.go. A line stands for the text
    printed from its parts, so equal lines are equal bytes. */
module Fingerprint {
  import opened Names

  datatype Field = Field(name: string, fieldType: string, required: bool, unique: bool, immutable: bool, sensitive: bool,
                         searchable: bool, options: seq<string>, link: string, series: string, caption: string)

  datatype Edge = Edge(name: string, target: string, edgeType: string, cascade: bool, caption: string)

  datatype Action = Action(name: string, verb: string, caption: string)

  datatype Permissions = Permissions(create: seq<string>, read: seq<string>, write: seq<string>, delete: seq<string>,
                                     actions: map<string, seq<string>>)

  datatype Entity = Entity(name: string, isSystem: bool, fields: seq<Field>, edges: seq<Edge>, actions: seq<Action>,
                           permissions: Permissions, caption: string)

  datatype Line =
    | EntityLine(name: string, isSystem: bool)
    | FieldLine(name: string, fieldType: string, required: bool, unique: bool, immutable: bool, sensitive: bool, searchable: bool)
    | OptionsLine(name: string, options: seq<string>)
    | LinkLine(name: string, link: string)
    | SeriesLine(name: string, series: string)
    | EdgeLine(name: string, target: string, edgeType: string, cascade: bool)
    | ActionLine(name: string, verb: string)
    | PermLine(name: string, grant: string, subject: string)

  // ---------------------------------------------------------------------------
  // Sorting by name and printing each element.

  function ByKey<T>(key: T -> string): (T, T) -> bool
  {
    (a, b) => Leq(key(a), key(b))
  }

  function Concat<T>(lines: T -> seq<Line>, items: seq<T>): seq<Line>
  {
    if items == [] then [] else Concat(lines, items[..|items| - 1]) + lines(items[|items| - 1])
  }

  lemma ConcatStep<T>(lines: T -> seq<Line>, items: seq<T>, i: nat)
    requires i < |items|
    ensures Concat(lines, items[..i + 1]) == Concat(lines, items[..i]) + lines(items[i])
  {
    assert items[..i + 1][..i] == items[..i];
  }

  /** A list in name order, each element printed. */
  function Listing<T>(key: T -> string, lines: T -> seq<Line>, items: seq<T>): seq<Line>
  {
    Concat(lines, Sort(ByKey(key), items))
  }

  /** Copying, sorting and writing out a list (fingerprint.go:34-68). */
  method WriteListing<T>(key: T -> string, lines: T -> seq<Line>, items: seq<T>, h: seq<Line>) returns (h': seq<Line>)
    ensures h' == h + Listing(key, lines, items)
  {
    var sorted := Sort(ByKey(key), items);
    h' := h;
    for i := 0 to |sorted|
      invariant h' == h + Concat(lines, sorted[..i])
    {
      ConcatStep(lines, sorted, i);
      h' := h' + lines(sorted[i]);
    }
    assert sorted[..|sorted|] == sorted;
  }

  ghost predicate DistinctKeys<T(!new)>(key: T -> string, items: seq<T>)
  {
    forall i, j :: 0 <= i < j < |items| ==> key(items[i]) != key(items[j])
  }

  /** Names with what is printed for them, order forgotten. */
  ghost function Printed<T>(key: T -> string, lines: T -> seq<Line>, items: seq<T>): set<(string, seq<Line>)>
  {
    set x | x in items :: (key(x), lines(x))
  }

  ghost function Keys<T>(key: T -> string, items: seq<T>): seq<string>
  {
    seq(|items|, i requires 0 <= i < |items| => key(items[i]))
  }

  lemma ByKeyPreorder<T(!new)>(key: T -> string)
    ensures TotalPreorder(ByKey(key))
  {
    LeqIsTotalOrder();
  }

  lemma SortedByName<T(!new)>(key: T -> string, lines: T -> seq<Line>, items: seq<T>)
    requires DistinctKeys(key, items)
    ensures var s := Sort(ByKey(key), items);
            && StrictlySorted(Keys(key, s)) && (forall x :: x in s <==> x in items)
            && Printed(key, lines, s) == Printed(key, lines, items)
  {
    var s := Sort(ByKey(key), items);
    ByKeyPreorder(key);
    SortIsSorted(ByKey(key), items);
    assert forall x :: x in s <==> x in multiset(s);
    assert forall x :: x in items <==> x in multiset(items);
    PermutedDistinct(items, s);
    forall i, j | 0 <= i < j < |s| ensures Less(key(s[i]), key(s[j])) {
      assert ByKey(key)(s[i], s[j]);
      assert s[i] in items && s[j] in items && s[i] != s[j];
      LessTotal(key(s[i]), key(s[j]));
    }
  }

  lemma {:induction false} ConcatAgrees<T>(lines: T -> seq<Line>, s: seq<T>, t: seq<T>)
    requires |s| == |t| && forall i :: 0 <= i < |s| ==> lines(s[i]) == lines(t[i])
    ensures Concat(lines, s) == Concat(lines, t)
  {
    if s != [] { ConcatAgrees(lines, s[..|s| - 1], t[..|t| - 1]); }
  }

  /** A listing depends only on which lines each name has. */
  lemma ListingIgnoresOrder<T(!new)>(key: T -> string, lines: T -> seq<Line>, a: seq<T>, b: seq<T>)
    requires DistinctKeys(key, a) && DistinctKeys(key, b) && Printed(key, lines, a) == Printed(key, lines, b)
    ensures Listing(key, lines, a) == Listing(key, lines, b)
  {
    var s, t := Sort(ByKey(key), a), Sort(ByKey(key), b);
    SortedByName(key, lines, a);
    SortedByName(key, lines, b);
    SameKeySets(key, lines, s, t);
    SameKeySets(key, lines, t, s);
    StrictlySortedUnique(Keys(key, s), Keys(key, t));
    forall i | 0 <= i < |s| ensures lines(s[i]) == lines(t[i]) {
      SameLinesAt(key, lines, s, t, i);
    }
    ConcatAgrees(lines, s, t);
  }

  lemma SameKeySets<T(!new)>(key: T -> string, lines: T -> seq<Line>, s: seq<T>, t: seq<T>)
    requires Printed(key, lines, s) == Printed(key, lines, t)
    ensures Elems(Keys(key, s)) <= Elems(Keys(key, t))
  {
    forall k | k in Keys(key, s) ensures k in Keys(key, t) {
      var i :| 0 <= i < |s| && key(s[i]) == k;
      assert (k, lines(s[i])) in Printed(key, lines, t);
      var x :| x in t && (key(x), lines(x)) == (k, lines(s[i]));
      var j :| 0 <= j < |t| && t[j] == x;
      assert Keys(key, t)[j] == k;
    }
  }

  lemma SameLinesAt<T(!new)>(key: T -> string, lines: T -> seq<Line>, s: seq<T>, t: seq<T>, i: nat)
    requires Keys(key, s) == Keys(key, t) && StrictlySorted(Keys(key, t)) && i < |s|
    requires Printed(key, lines, s) == Printed(key, lines, t)
    ensures |s| == |t| && lines(s[i]) == lines(t[i])
  {
    assert |Keys(key, s)| == |Keys(key, t)|;
    assert (key(s[i]), lines(s[i])) in Printed(key, lines, t);
    var x :| x in t && (key(x), lines(x)) == (key(s[i]), lines(s[i]));
    var j :| 0 <= j < |t| && t[j] == x;
    StrictIsDistinct(Keys(key, t));
    assert Keys(key, t)[j] == Keys(key, s)[i] == Keys(key, t)[i];
  }

  // ---------------------------------------------------------------------------
  // The stream.

  function OptionsPart(f: Field): seq<Line>
  {
    if f.options != [] then [OptionsLine(f.name, Sort(Leq, f.options))] else []
  }

  function LinkPart(f: Field): seq<Line>
  {
    if f.link != "" then [LinkLine(f.name, f.link)] else []
  }

  function SeriesPart(f: Field): seq<Line>
  {
    if f.series != "" then [SeriesLine(f.name, f.series)] else []
  }

  function FieldHead(f: Field): Line
  {
    FieldLine(f.name, f.fieldType, f.required, f.unique, f.immutable, f.sensitive, f.searchable)
  }

  function FieldLines(f: Field): seq<Line>
  {
    [FieldHead(f)] + OptionsPart(f) + LinkPart(f) + SeriesPart(f)
  }

  function EdgeLines(e: Edge): seq<Line>
  {
    [EdgeLine(e.name, e.target, e.edgeType, e.cascade)]
  }

  function ActionLines(a: Action): seq<Line>
  {
    [ActionLine(a.name, a.verb)]
  }

  /** writePerms: the subjects of one grant in order. */
  function PermLines(entity: string, grant: string, subjects: seq<string>): seq<Line>
  {
    var sorted := Sort(Leq, subjects);
    seq(|sorted|, i requires 0 <= i < |sorted| => PermLine(entity, grant, sorted[i]))
  }

  function ActionPerms(entity: string, actions: map<string, seq<string>>, names: seq<string>): seq<Line>
  {
    if names == [] then []
    else
      var last := names[|names| - 1];
      ActionPerms(entity, actions, names[..|names| - 1]) + PermLines(entity, last, if last in actions then actions[last] else [])
  }

  ghost function AllPerms(entity: string, p: Permissions): seq<Line>
  {
    PermLines(entity, "create", p.create) + PermLines(entity, "read", p.read) + PermLines(entity, "write", p.write)
    + PermLines(entity, "delete", p.delete) + ActionPerms(entity, p.actions, SortedSet(p.actions.Keys))
  }

  function FieldName(f: Field): string { f.name }

  function EdgeName(e: Edge): string { e.name }

  function ActionName(a: Action): string { a.name }

  function EntityName(e: Entity): string { e.name }

  ghost function EntityLines(e: Entity): seq<Line>
  {
    [EntityLine(e.name, e.isSystem)] + Listing(FieldName, FieldLines, e.fields) + Listing(EdgeName, EdgeLines, e.edges)
    + Listing(ActionName, ActionLines, e.actions) + AllPerms(e.name, e.permissions)
  }

  /** Everything Fingerprint writes to the hash. */
  ghost function Stream(entities: seq<Entity>): seq<Line>
  {
    Listing(EntityName, EntityLines, entities)
  }

  /** The grants of one entity (fingerprint.go:71-90). */
  method WritePermissions(entity: string, p: Permissions, h: seq<Line>) returns (h': seq<Line>)
    ensures h' == h + AllPerms(entity, p)
  {
    var lines := PermLines(entity, "create", p.create) + PermLines(entity, "read", p.read) + PermLines(entity, "write", p.write)
                 + PermLines(entity, "delete", p.delete);
    var names := SortedKeys(p.actions.Keys);
    SortedSetUnique(names, p.actions.Keys);
    var custom := WriteActionPerms(entity, p.actions, names);
    h' := h + (lines + custom);
  }

  method WriteActionPerms(entity: string, actions: map<string, seq<string>>, names: seq<string>) returns (h: seq<Line>)
    ensures h == ActionPerms(entity, actions, names)
  {
    h := [];
    for i := 0 to |names|
      invariant h == ActionPerms(entity, actions, names[..i])
    {
      assert names[..i + 1][..i] == names[..i];
      h := h + PermLines(entity, names[i], if names[i] in actions then actions[names[i]] else []);
    }
    assert names[..|names|] == names;
  }

  /** The body of the loop over entities (fingerprint.go:31-91). */
  method WriteEntity(e: Entity, h: seq<Line>) returns (h': seq<Line>)
    ensures h' == h + EntityLines(e)
  {
    var head := [EntityLine(e.name, e.isSystem)];
    var fields := WriteListing(FieldName, FieldLines, e.fields, head);
    var edges := WriteListing(EdgeName, EdgeLines, e.edges, fields);
    var actions := WriteListing(ActionName, ActionLines, e.actions, edges);
    var all := WritePermissions(e.name, e.permissions, actions);
    h' := h + all;
  }

  method WriteSchema(entities: seq<Entity>) returns (h: seq<Line>)
    ensures h == Stream(entities)
  {
    var sorted := Sort(ByKey(EntityName), entities);
    h := [];
    for i := 0 to |sorted|
      invariant h == Concat(EntityLines, sorted[..i])
    {
      ConcatStep(EntityLines, sorted, i);
      h := WriteEntity(sorted[i], h);
    }
    assert sorted[..|sorted|] == sorted;
  }

  // ---------------------------------------------------------------------------
  // What the stream does not depend on.

  /** Equal up to the order of options and the display caption. */
  ghost predicate SameField(f: Field, g: Field)
  {
    multiset(f.options) == multiset(g.options) && f.(options := g.options, caption := g.caption) == g
  }

  ghost predicate SameEdge(e: Edge, f: Edge)
  {
    e.(caption := f.caption) == f
  }

  ghost predicate SameAction(a: Action, b: Action)
  {
    a.(caption := b.caption) == b
  }

  /** Every element of either list has a counterpart in the other. */
  ghost predicate SameItems<T(!new)>(same: (T, T) -> bool, a: seq<T>, b: seq<T>)
  {
    && (forall x :: x in a ==> exists y :: y in b && same(x, y))
    && (forall y :: y in b ==> exists x :: x in a && same(x, y))
  }

  ghost predicate SamePermissions(p: Permissions, q: Permissions)
  {
    && multiset(p.create) == multiset(q.create) && multiset(p.read) == multiset(q.read)
    && multiset(p.write) == multiset(q.write) && multiset(p.delete) == multiset(q.delete)
    && p.actions.Keys == q.actions.Keys && forall n :: n in p.actions ==> multiset(p.actions[n]) == multiset(q.actions[n])
  }

  ghost predicate WellNamed(e: Entity)
  {
    DistinctKeys(FieldName, e.fields) && DistinctKeys(EdgeName, e.edges) && DistinctKeys(ActionName, e.actions)
  }

  /** Equal up to the order of every list and up to display data. */
  ghost predicate SameEntity(e: Entity, f: Entity)
  {
    && e.name == f.name && e.isSystem == f.isSystem && WellNamed(e) && WellNamed(f)
    && SameItems(SameField, e.fields, f.fields) && SameItems(SameEdge, e.edges, f.edges)
    && SameItems(SameAction, e.actions, f.actions) && SamePermissions(e.permissions, f.permissions)
  }

  lemma SortPermuted(s: seq<string>, t: seq<string>)
    requires multiset(s) == multiset(t)
    ensures Sort(Leq, s) == Sort(Leq, t)
  {
    LeqIsTotalOrder();
    SortIsSorted(Leq, s);
    SortIsSorted(Leq, t);
    SortedUnique(Leq, Sort(Leq, s), Sort(Leq, t));
  }

  /** Counterparts have the same name and print the same lines. */
  ghost predicate Respects<T(!new)>(same: (T, T) -> bool, key: T -> string, lines: T -> seq<Line>)
  {
    forall x, y :: same(x, y) ==> key(x) == key(y) && lines(x) == lines(y)
  }

  lemma SameItemsPrint<T(!new)>(same: (T, T) -> bool, key: T -> string, lines: T -> seq<Line>, a: seq<T>, b: seq<T>)
    requires SameItems(same, a, b) && DistinctKeys(key, a) && DistinctKeys(key, b)
    requires Respects(same, key, lines)
    ensures Listing(key, lines, a) == Listing(key, lines, b)
  {
    assert Printed(key, lines, a) == Printed(key, lines, b);
    ListingIgnoresOrder(key, lines, a, b);
  }

  lemma SameFieldLines(f: Field, g: Field)
    requires SameField(f, g)
    ensures f.name == g.name && FieldLines(f) == FieldLines(g)
  {
    SortPermuted(f.options, g.options);
    assert |multiset(f.options)| == |f.options| && |multiset(g.options)| == |g.options|;
  }

  lemma {:induction false} SameActionPerms(entity: string, p: Permissions, q: Permissions, names: seq<string>)
    requires SamePermissions(p, q)
    ensures ActionPerms(entity, p.actions, names) == ActionPerms(entity, q.actions, names)
  {
    if names != [] {
      SameActionPerms(entity, p, q, names[..|names| - 1]);
      var n := names[|names| - 1];
      if n in p.actions { SortPermuted(p.actions[n], q.actions[n]); }
    }
  }

  lemma SamePerms(entity: string, p: Permissions, q: Permissions)
    requires SamePermissions(p, q)
    ensures AllPerms(entity, p) == AllPerms(entity, q)
  {
    SortPermuted(p.create, q.create);
    SortPermuted(p.read, q.read);
    SortPermuted(p.write, q.write);
    SortPermuted(p.delete, q.delete);
    SameActionPerms(entity, p, q, SortedSet(p.actions.Keys));
  }

  lemma FieldsRespected()
    ensures Respects(SameField, FieldName, FieldLines)
  {
    forall x, y | SameField(x, y) ensures FieldName(x) == FieldName(y) && FieldLines(x) == FieldLines(y) {
      SameFieldLines(x, y);
    }
  }

  lemma SameEntityLines(e: Entity, f: Entity)
    requires SameEntity(e, f)
    ensures EntityLines(e) == EntityLines(f)
  {
    FieldsRespected();
    SameItemsPrint(SameField, FieldName, FieldLines, e.fields, f.fields);
    SameItemsPrint(SameEdge, EdgeName, EdgeLines, e.edges, f.edges);
    SameItemsPrint(SameAction, ActionName, ActionLines, e.actions, f.actions);
    SamePerms(e.name, e.permissions, f.permissions);
  }

  lemma EntitiesRespected()
    ensures Respects(SameEntity, EntityName, EntityLines)
  {
    forall e, f | SameEntity(e, f) ensures EntityName(e) == EntityName(f) && EntityLines(e) == EntityLines(f) {
      SameEntityLines(e, f);
    }
  }

  /** Schemas that differ only in registration order, in the order of fields, options, edges,
      actions or permission lists, or in display data have the same stream. */
  lemma StreamIgnoresOrder(s: seq<Entity>, t: seq<Entity>)
    requires DistinctKeys(EntityName, s) && DistinctKeys(EntityName, t) && SameItems(SameEntity, s, t)
    ensures Stream(s) == Stream(t)
  {
    EntitiesRespected();
    SameItemsPrint(SameEntity, EntityName, EntityLines, s, t);
  }

  // ---------------------------------------------------------------------------
  // What the stream tells apart.

  /** Every block starts with a head line and has no other. */
  ghost predicate Headed<T(!new)>(head: Line -> bool, lines: T -> seq<Line>)
  {
    forall x :: Block(head, lines(x))
  }

  ghost predicate Block(head: Line -> bool, b: seq<Line>)
  {
    b != [] && head(b[0]) && forall k :: 1 <= k < |b| ==> !head(b[k])
  }

  lemma LastBlock(head: Line -> bool, a: seq<Line>, x: seq<Line>, b: seq<Line>, y: seq<Line>)
    requires Block(head, x) && Block(head, y) && a + x == b + y
    ensures a == b && x == y
  {
    HeadPlace(head, a, x);
    HeadPlace(head, b, y);
    assert |a| == |b|;
    assert (a + x)[..|a|] == a && (b + y)[..|b|] == b && (a + x)[|a|..] == x && (b + y)[|b|..] == y;
  }

  /** The last head line is where the last block starts. */
  lemma HeadPlace(head: Line -> bool, a: seq<Line>, x: seq<Line>)
    requires Block(head, x)
    ensures |a| < |a + x| && head((a + x)[|a|]) && forall k :: |a| < k < |a + x| ==> !head((a + x)[k])
  { }

  lemma ConcatEmpty<T(!new)>(head: Line -> bool, lines: T -> seq<Line>, s: seq<T>)
    requires Headed(head, lines)
    ensures Concat(lines, s) == [] <==> s == []
  {
    if s != [] { assert Block(head, lines(s[|s| - 1])); }
  }

  /** The concatenation determines the blocks. */
  lemma {:induction false} SameBlocks<T(!new)>(head: Line -> bool, lines: T -> seq<Line>, s: seq<T>, t: seq<T>)
    requires Headed(head, lines) && Concat(lines, s) == Concat(lines, t)
    ensures |s| == |t| && forall i :: 0 <= i < |s| ==> lines(s[i]) == lines(t[i])
  {
    ConcatEmpty(head, lines, s);
    ConcatEmpty(head, lines, t);
    if s != [] {
      var x, y := s[|s| - 1], t[|t| - 1];
      assert Block(head, lines(x)) && Block(head, lines(y));
      LastBlock(head, Concat(lines, s[..|s| - 1]), lines(x), Concat(lines, t[..|t| - 1]), lines(y));
      SameBlocks(head, lines, s[..|s| - 1], t[..|t| - 1]);
    }
  }

  /** Elements that print alike are counterparts. */
  ghost predicate Reflects<T(!new)>(same: (T, T) -> bool, lines: T -> seq<Line>, ok: T -> bool)
  {
    forall x, y :: ok(x) && ok(y) && lines(x) == lines(y) ==> same(x, y)
  }

  lemma ListingTells<T(!new)>(same: (T, T) -> bool, key: T -> string, lines: T -> seq<Line>, ok: T -> bool, head: Line -> bool,
                              a: seq<T>, b: seq<T>)
    requires Headed(head, lines) && Reflects(same, lines, ok) && Listing(key, lines, a) == Listing(key, lines, b)
    requires (forall x :: x in a ==> ok(x)) && forall y :: y in b ==> ok(y)
    ensures SameItems(same, a, b)
  {
    var s, t := Sort(ByKey(key), a), Sort(ByKey(key), b);
    SortedMembers(key, a);
    SortedMembers(key, b);
    SameBlocks(head, lines, s, t);
    forall x | x in a ensures exists y :: y in b && same(x, y) {
      var i :| 0 <= i < |s| && s[i] == x;
      assert t[i] in t && same(x, t[i]);
    }
    forall y | y in b ensures exists x :: x in a && same(x, y) {
      var i :| 0 <= i < |t| && t[i] == y;
      assert s[i] in s && same(s[i], y);
    }
  }

  lemma SortedMembers<T(!new)>(key: T -> string, items: seq<T>)
    ensures forall x :: x in Sort(ByKey(key), items) <==> x in items
  {
    var s := Sort(ByKey(key), items);
    assert forall x :: x in s <==> x in multiset(s);
    assert forall x :: x in items <==> x in multiset(items);
  }

  ghost predicate AllLines(p: Line -> bool, ls: seq<Line>)
  {
    forall i :: 0 <= i < |ls| ==> p(ls[i])
  }

  lemma {:induction false} ConcatLines<T(!new)>(p: Line -> bool, lines: T -> seq<Line>, items: seq<T>)
    requires forall x :: x in items ==> AllLines(p, lines(x))
    ensures AllLines(p, Concat(lines, items))
  {
    if items != [] {
      ConcatLines(p, lines, items[..|items| - 1]);
      assert AllLines(p, lines(items[|items| - 1]));
    }
  }

  lemma ListingLines<T(!new)>(p: Line -> bool, key: T -> string, lines: T -> seq<Line>, items: seq<T>)
    requires forall x :: x in items ==> AllLines(p, lines(x))
    ensures AllLines(p, Listing(key, lines, items))
  {
    SortedMembers(key, items);
    ConcatLines(p, lines, Sort(ByKey(key), items));
  }

  ghost predicate NoLines(p: Line -> bool, ls: seq<Line>)
  {
    forall i :: 0 <= i < |ls| ==> !p(ls[i])
  }

  /** Where lines of one kind end and lines of other kinds begin. */
  lemma SplitKinds(p: Line -> bool, a: seq<Line>, b: seq<Line>, c: seq<Line>, d: seq<Line>)
    requires AllLines(p, a) && AllLines(p, c) && NoLines(p, b) && NoLines(p, d) && a + b == c + d
    ensures a == c && b == d
  {
    KindPlace(p, a, b);
    KindPlace(p, c, d);
    var n := if |a| < |c| then |a| else |c|;
    assert n < |a + b| ==> (p((a + b)[n]) <==> n < |a|) && (p((c + d)[n]) <==> n < |c|);
    assert |a| == |c|;
    assert (a + b)[..|a|] == a && (c + d)[..|c|] == c && (a + b)[|a|..] == b && (c + d)[|c|..] == d;
  }

  lemma KindPlace(p: Line -> bool, a: seq<Line>, b: seq<Line>)
    requires AllLines(p, a) && NoLines(p, b)
    ensures forall n :: 0 <= n < |a + b| ==> (p((a + b)[n]) <==> n < |a|)
  { }

  predicate IsEntity(l: Line) { l.EntityLine? }

  predicate IsField(l: Line) { l.FieldLine? || l.OptionsLine? || l.LinkLine? || l.SeriesLine? }

  predicate IsFieldHead(l: Line) { l.FieldLine? }

  predicate IsOptions(l: Line) { l.OptionsLine? }

  predicate IsLink(l: Line) { l.LinkLine? }

  predicate IsEdge(l: Line) { l.EdgeLine? }

  predicate IsAction(l: Line) { l.ActionLine? }

  predicate IsPerm(l: Line) { l.PermLine? }

  lemma FieldsHeaded()
    ensures Headed(IsFieldHead, FieldLines)
  { }

  lemma SortedTells(a: seq<string>, b: seq<string>)
    requires Sort(Leq, a) == Sort(Leq, b)
    ensures multiset(a) == multiset(b)
  {
    assert multiset(Sort(Leq, a)) == multiset(a) && multiset(Sort(Leq, b)) == multiset(b);
  }

  lemma FieldParts(f: Field)
    ensures FieldLines(f) == [FieldHead(f)] + (OptionsPart(f) + (LinkPart(f) + SeriesPart(f)))
  { }

  lemma PartKinds(f: Field)
    ensures AllLines(IsOptions, OptionsPart(f)) && NoLines(IsOptions, LinkPart(f) + SeriesPart(f))
    ensures AllLines(IsLink, LinkPart(f)) && NoLines(IsLink, SeriesPart(f))
  { }

  lemma PartsTell(f: Field, g: Field)
    requires FieldLines(f) == FieldLines(g)
    ensures FieldHead(f) == FieldHead(g) && OptionsPart(f) == OptionsPart(g)
    ensures LinkPart(f) == LinkPart(g) && SeriesPart(f) == SeriesPart(g)
  {
    FieldParts(f);
    FieldParts(g);
    SameTail(FieldHead(f), OptionsPart(f) + (LinkPart(f) + SeriesPart(f)), FieldHead(g), OptionsPart(g) + (LinkPart(g) + SeriesPart(g)));
    PartKinds(f);
    PartKinds(g);
    SplitKinds(IsOptions, OptionsPart(f), LinkPart(f) + SeriesPart(f), OptionsPart(g), LinkPart(g) + SeriesPart(g));
    SplitKinds(IsLink, LinkPart(f), SeriesPart(f), LinkPart(g), SeriesPart(g));
  }

  lemma SameTail(h: Line, a: seq<Line>, k: Line, b: seq<Line>)
    requires [h] + a == [k] + b
    ensures h == k && a == b
  {
    assert ([h] + a)[0] == h && ([k] + b)[0] == k;
    assert ([h] + a)[1..] == a && ([k] + b)[1..] == b;
  }

  lemma FieldTells(f: Field, g: Field)
    requires FieldLines(f) == FieldLines(g)
    ensures SameField(f, g)
  {
    PartsTell(f, g);
    assert |OptionsPart(f)| == |OptionsPart(g)| && |LinkPart(f)| == |LinkPart(g)| && |SeriesPart(f)| == |SeriesPart(g)|;
    if f.options != [] {
      assert OptionsPart(f)[0] == OptionsPart(g)[0];
      SortedTells(f.options, g.options);
    }
    if f.link != "" { assert LinkPart(f)[0] == LinkPart(g)[0]; }
    if f.series != "" { assert SeriesPart(f)[0] == SeriesPart(g)[0]; }
  }

  // Grants.

  /** The subjects of one grant, in the order written. */
  ghost function SubjectsOf(ls: seq<Line>, grant: string): seq<string>
  {
    if ls == [] then []
    else
      var last := ls[|ls| - 1];
      var init := SubjectsOf(ls[..|ls| - 1], grant);
      if last.PermLine? && last.grant == grant then init + [last.subject] else init
  }

  lemma {:induction false} SubjectsConcat(a: seq<Line>, b: seq<Line>, grant: string)
    ensures SubjectsOf(a + b, grant) == SubjectsOf(a, grant) + SubjectsOf(b, grant)
  {
    if b == [] {
      assert a + b == a;
    } else {
      assert (a + b)[..|a + b| - 1] == a + b[..|b| - 1];
      SubjectsConcat(a, b[..|b| - 1], grant);
    }
  }

  lemma {:induction false} SubjectsOfList(entity: string, name: string, list: seq<string>, ls: seq<Line>, grant: string)
    requires |ls| == |list| && forall i :: 0 <= i < |ls| ==> ls[i] == PermLine(entity, name, list[i])
    ensures SubjectsOf(ls, grant) == if grant == name then list else []
  {
    if ls != [] {
      SubjectsOfList(entity, name, list[..|list| - 1], ls[..|ls| - 1], grant);
    }
  }

  lemma SubjectsOfPerms(entity: string, name: string, subjects: seq<string>, grant: string)
    ensures SubjectsOf(PermLines(entity, name, subjects), grant) == if grant == name then Sort(Leq, subjects) else []
  {
    SubjectsOfList(entity, name, Sort(Leq, subjects), PermLines(entity, name, subjects), grant);
  }

  ghost function ActionSubjects(actions: map<string, seq<string>>, names: seq<string>, grant: string): seq<string>
  {
    if grant in names && grant in actions then Sort(Leq, actions[grant]) else []
  }

  lemma {:induction false} SubjectsOfActions(entity: string, actions: map<string, seq<string>>, names: seq<string>, grant: string)
    requires Distinct(names)
    ensures SubjectsOf(ActionPerms(entity, actions, names), grant) == ActionSubjects(actions, names, grant)
  {
    if names != [] {
      var init, last := names[..|names| - 1], names[|names| - 1];
      var subjects := if last in actions then actions[last] else [];
      assert names == init + [last];
      SubjectsOfActions(entity, actions, init, grant);
      SubjectsOfPerms(entity, last, subjects, grant);
      SubjectsConcat(ActionPerms(entity, actions, init), PermLines(entity, last, subjects), grant);
      OneMoreAction(actions, init, last, grant);
    }
  }

  lemma OneMoreAction(actions: map<string, seq<string>>, init: seq<string>, last: string, grant: string)
    requires Distinct(init + [last])
    ensures ActionSubjects(actions, init + [last], grant) ==
            ActionSubjects(actions, init, grant) + if grant == last then Sort(Leq, if last in actions then actions[last] else []) else []
  {
    assert (init + [last])[|init|] == last;
    assert forall i :: 0 <= i < |init| ==> init[i] == (init + [last])[i];
    assert last !in init;
  }

  /** What a caller can check: no action grant is empty or named like one of the four operations. */
  ghost predicate Separable(p: Permissions)
  {
    forall n :: n in p.actions ==> p.actions[n] != [] && n !in {"create", "read", "write", "delete"}
  }

  /** The subjects a grant stands for. */
  ghost function Granted(p: Permissions, grant: string): seq<string>
  {
    if grant == "create" then p.create
    else if grant == "read" then p.read
    else if grant == "write" then p.write
    else if grant == "delete" then p.delete
    else if grant in p.actions then p.actions[grant]
    else []
  }

  lemma SubjectsOfFive(a: seq<Line>, b: seq<Line>, c: seq<Line>, d: seq<Line>, e: seq<Line>, grant: string)
    ensures SubjectsOf(a + b + c + d + e, grant) ==
            SubjectsOf(a, grant) + SubjectsOf(b, grant) + SubjectsOf(c, grant) + SubjectsOf(d, grant) + SubjectsOf(e, grant)
  {
    SubjectsConcat(a, b, grant);
    SubjectsConcat(a + b, c, grant);
    SubjectsConcat(a + b + c, d, grant);
    SubjectsConcat(a + b + c + d, e, grant);
  }

  /** The lines of an entity's grants give back the subjects of each. */
  lemma SubjectsOfAll(entity: string, p: Permissions, grant: string)
    requires Separable(p)
    ensures SubjectsOf(AllPerms(entity, p), grant) == Sort(Leq, Granted(p, grant))
  {
    var names := SortedSet(p.actions.Keys);
    StrictIsDistinct(names);
    SubjectsOfPerms(entity, "create", p.create, grant);
    SubjectsOfPerms(entity, "read", p.read, grant);
    SubjectsOfPerms(entity, "write", p.write, grant);
    SubjectsOfPerms(entity, "delete", p.delete, grant);
    SubjectsOfActions(entity, p.actions, names, grant);
    assert grant in names <==> grant in Elems(names);
    var a, b, c, d := PermLines(entity, "create", p.create), PermLines(entity, "read", p.read), PermLines(entity, "write", p.write),
                      PermLines(entity, "delete", p.delete);
    var e := ActionPerms(entity, p.actions, names);
    SubjectsOfFive(a, b, c, d, e, grant);
    OneOfFive(p, grant, SubjectsOf(a, grant), SubjectsOf(b, grant), SubjectsOf(c, grant), SubjectsOf(d, grant), SubjectsOf(e, grant));
  }

  lemma OneOfFive(p: Permissions, grant: string, a: seq<string>, b: seq<string>, c: seq<string>, d: seq<string>, e: seq<string>)
    requires Separable(p)
    requires a == if grant == "create" then Sort(Leq, p.create) else []
    requires b == if grant == "read" then Sort(Leq, p.read) else []
    requires c == if grant == "write" then Sort(Leq, p.write) else []
    requires d == if grant == "delete" then Sort(Leq, p.delete) else []
    requires e == if grant in p.actions then Sort(Leq, p.actions[grant]) else []
    ensures a + b + c + d + e == Sort(Leq, Granted(p, grant))
  {
    ChooseGrant(grant, grant in p.actions, Sort(Leq, p.create), Sort(Leq, p.read), Sort(Leq, p.write), Sort(Leq, p.delete),
                if grant in p.actions then Sort(Leq, p.actions[grant]) else []);
  }

  /** At most one of the five is there. */
  lemma ChooseGrant(grant: string, custom: bool, a: seq<string>, b: seq<string>, c: seq<string>, d: seq<string>, e: seq<string>)
    requires custom ==> grant !in {"create", "read", "write", "delete"}
    ensures (if grant == "create" then a else []) + (if grant == "read" then b else []) + (if grant == "write" then c else [])
            + (if grant == "delete" then d else []) + (if custom then e else []) ==
            if grant == "create" then a else if grant == "read" then b else if grant == "write" then c
            else if grant == "delete" then d else if custom then e else []
  {
    OperationsDiffer();
  }

  lemma OperationsDiffer()
    ensures "create" != "read" && "create" != "write" && "create" != "delete"
    ensures "read" != "write" && "read" != "delete" && "write" != "delete"
  {
    assert "create"[0] == 'c' && "read"[0] == 'r' && "write"[0] == 'w' && "delete"[0] == 'd';
  }

  lemma GrantTells(entity: string, p: Permissions, q: Permissions, grant: string)
    requires Separable(p) && Separable(q) && AllPerms(entity, p) == AllPerms(entity, q)
    ensures multiset(Granted(p, grant)) == multiset(Granted(q, grant)) && |Granted(p, grant)| == |Granted(q, grant)|
  {
    SubjectsOfAll(entity, p, grant);
    SubjectsOfAll(entity, q, grant);
    SortedTells(Granted(p, grant), Granted(q, grant));
    assert |multiset(Granted(p, grant))| == |Granted(p, grant)| && |multiset(Granted(q, grant))| == |Granted(q, grant)|;
  }

  ghost predicate SameGrants(p: Permissions, q: Permissions)
  {
    forall g :: multiset(Granted(p, g)) == multiset(Granted(q, g)) && |Granted(p, g)| == |Granted(q, g)|
  }

  lemma GrantsTell(entity: string, p: Permissions, q: Permissions)
    requires Separable(p) && Separable(q) && AllPerms(entity, p) == AllPerms(entity, q)
    ensures SameGrants(p, q)
  {
    forall g ensures multiset(Granted(p, g)) == multiset(Granted(q, g)) && |Granted(p, g)| == |Granted(q, g)| {
      GrantTells(entity, p, q, g);
    }
  }

  lemma GrantedAction(p: Permissions, n: string)
    requires Separable(p) && n !in {"create", "read", "write", "delete"}
    ensures Granted(p, n) == (if n in p.actions then p.actions[n] else []) && (|Granted(p, n)| > 0 <==> n in p.actions)
  { }

  lemma ActionsTell(p: Permissions, q: Permissions, n: string)
    requires Separable(p) && Separable(q) && SameGrants(p, q) && n in p.actions
    ensures n in q.actions && multiset(p.actions[n]) == multiset(q.actions[n])
  {
    GrantedAction(p, n);
    GrantedAction(q, n);
    assert |Granted(p, n)| == |Granted(q, n)|;
  }

  lemma OperationsTell(p: Permissions, q: Permissions)
    requires SameGrants(p, q)
    ensures multiset(p.create) == multiset(q.create) && multiset(p.read) == multiset(q.read)
    ensures multiset(p.write) == multiset(q.write) && multiset(p.delete) == multiset(q.delete)
  {
    OperationsDiffer();
    assert Granted(p, "create") == p.create && Granted(q, "create") == q.create;
    assert Granted(p, "read") == p.read && Granted(q, "read") == q.read;
    assert Granted(p, "write") == p.write && Granted(q, "write") == q.write;
    assert Granted(p, "delete") == p.delete && Granted(q, "delete") == q.delete;
  }

  lemma SameGrantsMean(p: Permissions, q: Permissions)
    requires Separable(p) && Separable(q) && SameGrants(p, q)
    ensures SamePermissions(p, q)
  {
    OperationsTell(p, q);
    forall n | n in p.actions ensures n in q.actions && multiset(p.actions[n]) == multiset(q.actions[n]) { ActionsTell(p, q, n); }
    forall n | n in q.actions ensures n in p.actions { ActionsTell(q, p, n); }
  }

  /** Grants print alike exactly when they are the same, as long as no action grant is empty or named
      like one of the four operations. */
  lemma PermissionsIff(entity: string, p: Permissions, q: Permissions)
    requires Separable(p) && Separable(q)
    ensures AllPerms(entity, p) == AllPerms(entity, q) <==> SamePermissions(p, q)
  {
    if SamePermissions(p, q) { SamePerms(entity, p, q); }
    if AllPerms(entity, p) == AllPerms(entity, q) {
      GrantsTell(entity, p, q);
      SameGrantsMean(p, q);
    }
  }

  // Entities.

  /** Distinct names in each list, and separable grants. */
  ghost predicate Orderly(e: Entity)
  {
    WellNamed(e) && Separable(e.permissions)
  }

  /** An entity's lines, kind by kind. */
  datatype Sections = Sections(fields: seq<Line>, edges: seq<Line>, actions: seq<Line>, grants: seq<Line>)

  ghost function SectionsOf(e: Entity): Sections
  {
    Sections(Listing(FieldName, FieldLines, e.fields), Listing(EdgeName, EdgeLines, e.edges),
             Listing(ActionName, ActionLines, e.actions), AllPerms(e.name, e.permissions))
  }

  ghost predicate Sorted(b: Sections)
  {
    AllLines(IsField, b.fields) && AllLines(IsEdge, b.edges) && AllLines(IsAction, b.actions) && AllLines(IsPerm, b.grants)
  }

  ghost function Body(b: Sections): seq<Line>
  {
    b.fields + b.edges + b.actions + b.grants
  }

  lemma {:induction false} ActionPermsKind(entity: string, actions: map<string, seq<string>>, names: seq<string>)
    ensures AllLines(IsPerm, ActionPerms(entity, actions, names))
  {
    if names != [] { ActionPermsKind(entity, actions, names[..|names| - 1]); }
  }

  lemma SectionsSorted(e: Entity)
    ensures Sorted(SectionsOf(e)) && EntityLines(e) == [EntityLine(e.name, e.isSystem)] + Body(SectionsOf(e))
  {
    KindsSorted(e);
    var b := SectionsOf(e);
    HeadAssoc(EntityLine(e.name, e.isSystem), b.fields, b.edges, b.actions, b.grants);
  }

  lemma KindsSorted(e: Entity)
    ensures Sorted(SectionsOf(e))
  {
    FieldListingKind(e.fields);
    EdgeListingKind(e.edges);
    ActionListingKind(e.actions);
    PermsKind(e.name, e.permissions);
  }

  lemma FieldListingKind(fields: seq<Field>)
    ensures AllLines(IsField, Listing(FieldName, FieldLines, fields))
  {
    ListingLines(IsField, FieldName, FieldLines, fields);
  }

  lemma EdgeListingKind(edges: seq<Edge>)
    ensures AllLines(IsEdge, Listing(EdgeName, EdgeLines, edges))
  {
    ListingLines(IsEdge, EdgeName, EdgeLines, edges);
  }

  lemma ActionListingKind(actions: seq<Action>)
    ensures AllLines(IsAction, Listing(ActionName, ActionLines, actions))
  {
    ListingLines(IsAction, ActionName, ActionLines, actions);
  }

  lemma PermsKind(entity: string, p: Permissions)
    ensures AllLines(IsPerm, AllPerms(entity, p))
  {
    var names := SortedSet(p.actions.Keys);
    ActionPermsKind(entity, p.actions, names);
    PermLinesKind(entity, "create", p.create);
    PermLinesKind(entity, "read", p.read);
    PermLinesKind(entity, "write", p.write);
    PermLinesKind(entity, "delete", p.delete);
    KindOfFive(IsPerm, PermLines(entity, "create", p.create), PermLines(entity, "read", p.read), PermLines(entity, "write", p.write),
               PermLines(entity, "delete", p.delete), ActionPerms(entity, p.actions, names));
  }

  lemma PermLinesKind(entity: string, grant: string, subjects: seq<string>)
    ensures AllLines(IsPerm, PermLines(entity, grant, subjects))
  { }

  lemma KindOfFive(p: Line -> bool, a: seq<Line>, b: seq<Line>, c: seq<Line>, d: seq<Line>, e: seq<Line>)
    requires AllLines(p, a) && AllLines(p, b) && AllLines(p, c) && AllLines(p, d) && AllLines(p, e)
    ensures AllLines(p, a + b + c + d + e)
  { }

  lemma HeadAssoc(h: Line, a: seq<Line>, b: seq<Line>, c: seq<Line>, d: seq<Line>)
    ensures [h] + a + b + c + d == [h] + (a + b + c + d)
  { }

  lemma BodyAssoc(b: Sections)
    ensures Body(b) == b.fields + (b.edges + (b.actions + b.grants))
  { }

  /** The kinds tell the sections apart. */
  lemma SectionsTell(b: Sections, c: Sections)
    requires Sorted(b) && Sorted(c) && Body(b) == Body(c)
    ensures b == c
  {
    BodyAssoc(b);
    BodyAssoc(c);
    SplitKinds(IsField, b.fields, b.edges + (b.actions + b.grants), c.fields, c.edges + (c.actions + c.grants));
    SplitKinds(IsEdge, b.edges, b.actions + b.grants, c.edges, c.actions + c.grants);
    SplitKinds(IsAction, b.actions, b.grants, c.actions, c.grants);
  }

  lemma EntitiesHeaded()
    ensures Headed(IsEntity, EntityLines)
  {
    forall e: Entity ensures Block(IsEntity, EntityLines(e)) {
      SectionsSorted(e);
      NoHeadInside(SectionsOf(e));
    }
  }

  lemma NoHeadInside(b: Sections)
    requires Sorted(b)
    ensures forall k :: 0 <= k < |Body(b)| ==> !Body(b)[k].EntityLine?
  { }

  lemma ListsTell(e: Entity, f: Entity)
    requires SectionsOf(e) == SectionsOf(f)
    ensures SameItems(SameField, e.fields, f.fields) && SameItems(SameEdge, e.edges, f.edges)
    ensures SameItems(SameAction, e.actions, f.actions)
  {
    FieldsTell(e.fields, f.fields);
    EdgesTell(e.edges, f.edges);
    ActionListTells(e.actions, f.actions);
  }

  lemma EdgesTell(a: seq<Edge>, b: seq<Edge>)
    requires Listing(EdgeName, EdgeLines, a) == Listing(EdgeName, EdgeLines, b)
    ensures SameItems(SameEdge, a, b)
  {
    assert Headed(IsEdge, EdgeLines);
    assert forall e: Edge :: EdgeLines(e)[0] == EdgeLine(e.name, e.target, e.edgeType, e.cascade);
    ListingTells(SameEdge, EdgeName, EdgeLines, _ => true, IsEdge, a, b);
  }

  lemma ActionListTells(a: seq<Action>, b: seq<Action>)
    requires Listing(ActionName, ActionLines, a) == Listing(ActionName, ActionLines, b)
    ensures SameItems(SameAction, a, b)
  {
    assert Headed(IsAction, ActionLines);
    assert forall x: Action :: ActionLines(x)[0] == ActionLine(x.name, x.verb);
    ListingTells(SameAction, ActionName, ActionLines, _ => true, IsAction, a, b);
  }

  lemma FieldsTell(a: seq<Field>, b: seq<Field>)
    requires Listing(FieldName, FieldLines, a) == Listing(FieldName, FieldLines, b)
    ensures SameItems(SameField, a, b)
  {
    FieldsHeaded();
    forall f, g | FieldLines(f) == FieldLines(g) ensures SameField(f, g) { FieldTells(f, g); }
    ListingTells(SameField, FieldName, FieldLines, _ => true, IsFieldHead, a, b);
  }

  lemma EntityTells(e: Entity, f: Entity)
    requires Orderly(e) && Orderly(f) && EntityLines(e) == EntityLines(f)
    ensures SameEntity(e, f)
  {
    SectionsSorted(e);
    SectionsSorted(f);
    assert EntityLines(e)[0] == EntityLines(f)[0];
    assert EntityLines(e)[1..] == Body(SectionsOf(e)) && EntityLines(f)[1..] == Body(SectionsOf(f));
    SectionsTell(SectionsOf(e), SectionsOf(f));
    ListsTell(e, f);
    PermissionsIff(e.name, e.permissions, f.permissions);
  }

  /** The stream tells schemas apart exactly up to order and display data: equal streams mean the
      same entities, as long as names are distinct in each list and no action grant is empty or
      named like one of the four operations. */
  lemma StreamIff(s: seq<Entity>, t: seq<Entity>)
    requires DistinctKeys(EntityName, s) && DistinctKeys(EntityName, t)
    requires (forall e :: e in s ==> Orderly(e)) && forall e :: e in t ==> Orderly(e)
    ensures Stream(s) == Stream(t) <==> SameItems(SameEntity, s, t)
  {
    if SameItems(SameEntity, s, t) { StreamIgnoresOrder(s, t); }
    if Stream(s) == Stream(t) {
      EntitiesHeaded();
      EntitiesReflected();
      ListingTells(SameEntity, EntityName, EntityLines, Orderly, IsEntity, s, t);
    }
  }

  lemma EntitiesReflected()
    ensures Reflects(SameEntity, EntityLines, Orderly)
  {
    forall e, f | Orderly(e) && Orderly(f) && EntityLines(e) == EntityLines(f) ensures SameEntity(e, f) { EntityTells(e, f); }
  }

  /** Without that condition it does not: a grant to create and a grant to a custom action named
      "create" print alike. */
  lemma CreateGrantIsAmbiguous(entity: string, subject: string)
    ensures AllPerms(entity, Permissions([subject], [], [], [], map[])) ==
            AllPerms(entity, Permissions([], [], [], [], map["create" := [subject]]))
  {
    var p, q := Permissions([subject], [], [], [], map[]), Permissions([], [], [], [], map["create" := [subject]]);
    SortedSetUnique([], p.actions.Keys);
    OneAction(entity, "create", [subject]);
    NoGrants(entity);
    FirstOrLast(PermLines(entity, "create", [subject]));
  }

  lemma NoGrants(entity: string)
    ensures forall grant :: PermLines(entity, grant, []) == []
  { }

  lemma FirstOrLast(a: seq<Line>)
    ensures a + [] + [] + [] + [] == [] + [] + [] + [] + a
  { }

  lemma OneAction(entity: string, action: string, subjects: seq<string>)
    ensures var actions := map[action := subjects];
            ActionPerms(entity, actions, SortedSet(actions.Keys)) == PermLines(entity, action, subjects)
  {
    var actions := map[action := subjects];
    assert Elems([action]) == actions.Keys;
    SortedSetUnique([action], actions.Keys);
    assert [action][..0] == [];
  }

  /** And an action granted to nobody prints nothing. */
  lemma EmptyGrantIsSilent(entity: string, action: string)
    ensures AllPerms(entity, Permissions([], [], [], [], map[])) == AllPerms(entity, Permissions([], [], [], [], map[action := []]))
  {
    SortedSetUnique([], {});
    OneAction(entity, action, []);
  }
}
