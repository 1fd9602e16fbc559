/** The bytes behind a fingerprint: the text of each line (awo/compiler/fingerprint.go:31-90). Texts that
    keep clear of the separators can be read back, so the bytes tell as much as the lines. */
module FingerprintText {
  import opened Names
  import opened Fingerprint

  function Flag(b: bool): string
  {
    if b then "true" else "false"
  }

  /** One part of a line, a colon, and the rest. */
  function Then(part: string, rest: string): string
  {
    part + [':'] + rest
  }

  function Joined(options: seq<string>): string
  {
    if options == [] then "" else if |options| == 1 then options[0] else options[0] + [','] + Joined(options[1..])
  }

  /** The flags of a field, the last ones first. */
  function LastFlags(l: Line): string
    requires l.FieldLine?
  {
    Then("sens=" + Flag(l.sensitive), "search=" + Flag(l.searchable))
  }

  function LaterFlags(l: Line): string
    requires l.FieldLine?
  {
    Then("uniq=" + Flag(l.unique), Then("imm=" + Flag(l.immutable), LastFlags(l)))
  }

  function FlagsText(l: Line): string
    requires l.FieldLine?
  {
    Then("req=" + Flag(l.required), LaterFlags(l))
  }

  function Word(l: Line): string
  {
    match l
    case EntityLine(_, _) => "entity"
    case EdgeLine(_, _, _, _) => "edge"
    case ActionLine(_, _) => "action"
    case PermLine(_, _, _) => "perm"
    case _ => "field"
  }

  /** What stands between a field's name and the rest of its line. */
  function Tag(l: Line): string
    requires IsField(l)
  {
    match l
    case FieldLine(_, t, _, _, _, _, _) => t
    case OptionsLine(_, _) => "options"
    case LinkLine(_, _) => "link"
    case SeriesLine(_, _) => "series"
  }

  function FieldRest(l: Line): string
    requires IsField(l)
  {
    match l
    case FieldLine(_, _, _, _, _, _, _) => FlagsText(l)
    case OptionsLine(_, options) => Joined(options)
    case LinkLine(_, link) => link
    case SeriesLine(_, series) => series
  }

  function Rest(l: Line): string
  {
    match l
    case EntityLine(name, system) => Then(name, Then("system", Flag(system)))
    case EdgeLine(name, target, t, cascade) => Then(name, Then(target, Then(t, "cascade=" + Flag(cascade))))
    case ActionLine(name, verb) => Then(name, verb)
    case PermLine(name, grant, subject) => Then(name, Then(grant, subject))
    case _ => Then(l.name, Then(Tag(l), FieldRest(l)))
  }

  function Text(l: Line): string
  {
    Then(Word(l), Rest(l))
  }

  /** Each text on a line of its own. */
  function Lined(ts: seq<string>): string
  {
    if ts == [] then "" else Lined(ts[..|ts| - 1]) + (ts[|ts| - 1] + ['\n'])
  }

  function Texts(ls: seq<Line>): (ts: seq<string>)
    ensures |ts| == |ls|
  {
    seq(|ls|, i requires 0 <= i < |ls| => Text(ls[i]))
  }

  function Bytes(ls: seq<Line>): string
  {
    Lined(Texts(ls))
  }

  predicate Plain(s: string)
  {
    ':' !in s && '\n' !in s
  }

  /** Names, types, targets and labels without colons, options without commas, no line breaks, and no
      field type named like one of the two other tags a field line can have. */
  predicate Clean(l: Line)
  {
    && Plain(l.name)
    && match l
       case EntityLine(_, _) => true
       case FieldLine(_, t, _, _, _, _, _) => Plain(t) && t != "options" && t != "series"
       case OptionsLine(_, options) => options != [] && forall i :: 0 <= i < |options| ==> ',' !in options[i] && '\n' !in options[i]
       case LinkLine(_, link) => Plain(link)
       case SeriesLine(_, series) => '\n' !in series
       case EdgeLine(_, target, t, _) => Plain(target) && Plain(t)
       case ActionLine(_, verb) => '\n' !in verb
       case PermLine(_, grant, subject) => Plain(grant) && '\n' !in subject
  }

  // ---------------------------------------------------------------------------
  // The texts of fields, edges, actions and grants, part by part.

  /** The parts separated by colons. */
  ghost function Colons(parts: seq<string>): string
  {
    if parts == [] then "" else if |parts| == 1 then parts[0] else parts[0] + [':'] + Colons(parts[1..])
  }

  lemma ColonsThen(part: string, parts: seq<string>)
    requires parts != []
    ensures Colons([part] + parts) == Then(part, Colons(parts))
  {
    assert ([part] + parts)[1..] == parts;
  }

  lemma Colons2(a: string, b: string)
    ensures Colons([a, b]) == Then(a, b)
  {
    assert [a, b][1..] == [b];
  }

  lemma Colons3(a: string, b: string, c: string)
    ensures Colons([a, b, c]) == Then(a, Then(b, c))
  {
    Colons2(b, c);
    assert [a, b, c][1..] == [b, c];
  }

  lemma Colons4(a: string, b: string, c: string, d: string)
    ensures Colons([a, b, c, d]) == Then(a, Then(b, Then(c, d)))
  {
    Colons3(b, c, d);
    assert [a, b, c, d][1..] == [b, c, d];
  }

  lemma Colons5(a: string, b: string, c: string, d: string, e: string)
    ensures Colons([a, b, c, d, e]) == Then(a, Then(b, Then(c, Then(d, e))))
  {
    Colons4(b, c, d, e);
    assert [a, b, c, d, e][1..] == [b, c, d, e];
  }

  /** The first line of a field. */
  ghost function HeadText(f: Field): string
  {
    Colons(["field", f.name, f.fieldType]
           + ["req=" + Flag(f.required), "uniq=" + Flag(f.unique), "imm=" + Flag(f.immutable),
              "sens=" + Flag(f.sensitive), "search=" + Flag(f.searchable)])
  }

  lemma HeadTexts(f: Field)
    ensures Text(FieldHead(f)) == HeadText(f)
  {
    var flags := ["req=" + Flag(f.required), "uniq=" + Flag(f.unique), "imm=" + Flag(f.immutable),
                  "sens=" + Flag(f.sensitive), "search=" + Flag(f.searchable)];
    Colons5(flags[0], flags[1], flags[2], flags[3], flags[4]);
    ColonsThen(f.fieldType, flags);
    ColonsThen(f.name, [f.fieldType] + flags);
    ColonsThen("field", [f.name] + ([f.fieldType] + flags));
    assert ["field"] + ([f.name] + ([f.fieldType] + flags)) == ["field", f.name, f.fieldType] + flags;
  }

  lemma OptionsTexts(f: Field)
    ensures Texts(OptionsPart(f)) == if f.options == [] then [] else [Colons(["field", f.name, "options", Joined(Sort(Leq, f.options))])]
  {
    Colons4("field", f.name, "options", Joined(Sort(Leq, f.options)));
  }

  lemma LinkTexts(f: Field)
    ensures Texts(LinkPart(f)) == if f.link == "" then [] else [Colons(["field", f.name, "link", f.link])]
    ensures Texts(SeriesPart(f)) == if f.series == "" then [] else [Colons(["field", f.name, "series", f.series])]
  {
    Colons4("field", f.name, "link", f.link);
    Colons4("field", f.name, "series", f.series);
  }

  /** What a field contributes: its type and flags, then its options in order, its link target and its
      series where it has them. */
  lemma FieldTexts(f: Field)
    ensures Flag(true) == "true" && Flag(false) == "false"
    ensures Texts(FieldLines(f)) ==
            [HeadText(f)]
            + (if f.options == [] then [] else [Colons(["field", f.name, "options", Joined(Sort(Leq, f.options))])])
            + (if f.link == "" then [] else [Colons(["field", f.name, "link", f.link])])
            + (if f.series == "" then [] else [Colons(["field", f.name, "series", f.series])])
  {
    HeadTexts(f);
    OptionsTexts(f);
    LinkTexts(f);
    TextsConcat([FieldHead(f)], OptionsPart(f));
    TextsConcat([FieldHead(f)] + OptionsPart(f), LinkPart(f));
    TextsConcat([FieldHead(f)] + OptionsPart(f) + LinkPart(f), SeriesPart(f));
  }

  lemma TextsConcat(a: seq<Line>, b: seq<Line>)
    ensures Texts(a + b) == Texts(a) + Texts(b)
  {
    var l := a + b;
    forall i | 0 <= i < |l| ensures Texts(l)[i] == (Texts(a) + Texts(b))[i] {
      assert l[i] == if i < |a| then a[i] else b[i - |a|];
    }
  }

  lemma OtherTexts(entity: Entity, edge: Edge, action: Action)
    ensures Text(EntityLine(entity.name, entity.isSystem)) == Colons(["entity", entity.name, "system", Flag(entity.isSystem)])
    ensures Texts(EdgeLines(edge)) == [Colons(["edge", edge.name, edge.target, edge.edgeType, "cascade=" + Flag(edge.cascade)])]
    ensures Texts(ActionLines(action)) == [Colons(["action", action.name, action.verb])]
  {
    Colons4("entity", entity.name, "system", Flag(entity.isSystem));
    Colons5("edge", edge.name, edge.target, edge.edgeType, "cascade=" + Flag(edge.cascade));
    Colons3("action", action.name, action.verb);
  }

  /** One line for each subject of a grant, in order. */
  lemma GrantTexts(entity: string, grant: string, subjects: seq<string>, sorted: seq<string>)
    requires multiset(sorted) == multiset(subjects) && SortedBy(Leq, sorted)
    ensures var ts := Texts(PermLines(entity, grant, subjects));
            |ts| == |sorted| && forall i :: 0 <= i < |sorted| ==> ts[i] == Colons(["perm", entity, grant, sorted[i]])
  {
    LeqIsTotalOrder();
    SortIsSorted(Leq, subjects);
    SortedUnique(Leq, sorted, Sort(Leq, subjects));
    forall i | 0 <= i < |sorted| ensures Text(PermLine(entity, grant, sorted[i])) == Colons(["perm", entity, grant, sorted[i]]) {
      Colons4("perm", entity, grant, sorted[i]);
    }
  }

  // ---------------------------------------------------------------------------
  // Reading back.

  lemma Part(a: string, x: string, b: string, y: string)
    requires ':' !in a && ':' !in b && Then(a, x) == Then(b, y)
    ensures a == b && x == y
  {
    Peel(a, ':', x, b, y);
  }

  lemma FlagTells(head: string, a: bool, b: bool)
    requires head + Flag(a) == head + Flag(b)
    ensures a == b
  {
    assert (head + Flag(a))[|head|..] == Flag(a) && (head + Flag(b))[|head|..] == Flag(b);
    assert Flag(a)[0] == (if a then 't' else 'f') && Flag(b)[0] == if b then 't' else 'f';
  }

  lemma {:induction false} JoinedTells(a: seq<string>, b: seq<string>)
    requires a != [] && b != [] && Joined(a) == Joined(b)
    requires (forall i :: 0 <= i < |a| ==> ',' !in a[i]) && forall i :: 0 <= i < |b| ==> ',' !in b[i]
    ensures a == b
  {
    assert ',' !in a[0] && ',' !in b[0];
    CommaInside(a);
    CommaInside(b);
    assert |a| == 1 <==> |b| == 1;
    if |a| > 1 {
      Peel(a[0], ',', Joined(a[1..]), b[0], Joined(b[1..]));
      JoinedTells(a[1..], b[1..]);
      assert a == [a[0]] + a[1..] && b == [b[0]] + b[1..];
    } else {
      assert a == [a[0]] && b == [b[0]];
    }
  }

  lemma CommaInside(a: seq<string>)
    requires a != [] && ',' !in a[0]
    ensures ',' in Joined(a) <==> |a| > 1
  {
    if |a| > 1 { assert Joined(a)[|a[0]|] == ','; }
  }

  lemma FlagPart(head: string, a: bool, x: string, b: bool, y: string)
    requires ':' !in head && Then(head + Flag(a), x) == Then(head + Flag(b), y)
    ensures a == b && x == y
  {
    Part(head + Flag(a), x, head + Flag(b), y);
    FlagTells(head, a, b);
  }

  lemma LastFlagsTell(l: Line, m: Line)
    requires l.FieldLine? && m.FieldLine? && LastFlags(l) == LastFlags(m)
    ensures l.sensitive == m.sensitive && l.searchable == m.searchable
  {
    FlagPart("sens=", l.sensitive, "search=" + Flag(l.searchable), m.sensitive, "search=" + Flag(m.searchable));
    FlagTells("search=", l.searchable, m.searchable);
  }

  lemma LaterFlagsTell(l: Line, m: Line)
    requires l.FieldLine? && m.FieldLine? && LaterFlags(l) == LaterFlags(m)
    ensures l.unique == m.unique && l.immutable == m.immutable && LastFlags(l) == LastFlags(m)
  {
    FlagPart("uniq=", l.unique, Then("imm=" + Flag(l.immutable), LastFlags(l)), m.unique, Then("imm=" + Flag(m.immutable), LastFlags(m)));
    FlagPart("imm=", l.immutable, LastFlags(l), m.immutable, LastFlags(m));
  }

  lemma FlagsTell(l: Line, m: Line)
    requires l.FieldLine? && m.FieldLine? && FlagsText(l) == FlagsText(m)
    ensures l.required == m.required && l.unique == m.unique && l.immutable == m.immutable
    ensures l.sensitive == m.sensitive && l.searchable == m.searchable
  {
    FlagPart("req=", l.required, LaterFlags(l), m.required, LaterFlags(m));
    LaterFlagsTell(l, m);
    LastFlagsTell(l, m);
  }

  lemma ColonInFlags(l: Line)
    requires l.FieldLine?
    ensures ':' in FlagsText(l)
  {
    var part := "req=" + Flag(l.required);
    assert FlagsText(l)[|part|] == ':';
  }

  lemma TagsDiffer()
    ensures "options" != "link" && "options" != "series" && "link" != "series"
  {
    assert "options"[0] == 'o' && "link"[0] == 'l' && "series"[0] == 's';
  }

  lemma FieldTextTells(l: Line, m: Line)
    requires IsField(l) && IsField(m) && Clean(l) && Clean(m) && Rest(l) == Rest(m)
    ensures l == m
  {
    TagsDiffer();
    Part(l.name, Then(Tag(l), FieldRest(l)), m.name, Then(Tag(m), FieldRest(m)));
    Part(Tag(l), FieldRest(l), Tag(m), FieldRest(m));
    if l.FieldLine? { ColonInFlags(l); }
    if m.FieldLine? { ColonInFlags(m); }
    if l.FieldLine? && m.FieldLine? { FlagsTell(l, m); }
    if l.OptionsLine? && m.OptionsLine? { JoinedTells(l.options, m.options); }
  }

  lemma WordsDiffer()
    ensures "entity" != "edge" && "entity" != "action" && "entity" != "perm" && "entity" != "field" && "edge" != "action"
    ensures "edge" != "perm" && "edge" != "field" && "action" != "perm" && "action" != "field" && "perm" != "field"
  {
    assert "entity"[1] == 'n' && "edge"[1] == 'd' && "action"[0] == 'a' && "perm"[0] == 'p' && "field"[0] == 'f';
    assert "entity"[0] == 'e' && "edge"[0] == 'e';
  }

  lemma OtherTextTells(l: Line, m: Line)
    requires !IsField(l) && !IsField(m) && Word(l) == Word(m) && Clean(l) && Clean(m) && Rest(l) == Rest(m)
    ensures l == m
  {
    WordsDiffer();
    match l
    case EntityLine(name, system) =>
      Part(name, Then("system", Flag(system)), m.name, Then("system", Flag(m.isSystem)));
      Part("system", Flag(system), "system", Flag(m.isSystem));
      FlagTells("", system, m.isSystem);
    case EdgeLine(name, target, t, cascade) =>
      Part(name, Then(target, Then(t, "cascade=" + Flag(cascade))),
           m.name, Then(m.target, Then(m.edgeType, "cascade=" + Flag(m.cascade))));
      Part(target, Then(t, "cascade=" + Flag(cascade)), m.target, Then(m.edgeType, "cascade=" + Flag(m.cascade)));
      Part(t, "cascade=" + Flag(cascade), m.edgeType, "cascade=" + Flag(m.cascade));
      FlagTells("cascade=", cascade, m.cascade);
    case ActionLine(name, verb) =>
      Part(name, verb, m.name, m.verb);
    case PermLine(name, grant, subject) =>
      Part(name, Then(grant, subject), m.name, Then(m.grant, m.subject));
      Part(grant, subject, m.grant, m.subject);
  }

  /** Clean lines have different texts. */
  lemma TextTells(l: Line, m: Line)
    requires Clean(l) && Clean(m) && Text(l) == Text(m)
    ensures l == m
  {
    WordsDiffer();
    Part(Word(l), Rest(l), Word(m), Rest(m));
    if IsField(l) { FieldTextTells(l, m); } else { OtherTextTells(l, m); }
  }

  lemma {:induction false} JoinedPlain(options: seq<string>)
    requires forall i :: 0 <= i < |options| ==> '\n' !in options[i]
    ensures '\n' !in Joined(options)
  {
    if |options| > 1 {
      assert '\n' !in options[0];
      JoinedPlain(options[1..]);
    }
  }

  lemma ThenOneLine(part: string, rest: string)
    ensures '\n' !in Then(part, rest) <==> '\n' !in part && '\n' !in rest
  {
    assert forall c :: c in Then(part, rest) <==> c in part || c == ':' || c in rest;
  }

  lemma FlagOneLine(head: string, b: bool)
    ensures '\n' !in head + Flag(b) <==> '\n' !in head
  {
    assert forall c :: c in head + Flag(b) <==> c in head || c in Flag(b);
  }

  lemma FlagsOneLine(l: Line)
    requires l.FieldLine?
    ensures '\n' !in FlagsText(l)
  {
    FlagOneLine("req=", l.required);
    FlagOneLine("uniq=", l.unique);
    FlagOneLine("imm=", l.immutable);
    FlagOneLine("sens=", l.sensitive);
    FlagOneLine("search=", l.searchable);
    ThenOneLine("sens=" + Flag(l.sensitive), "search=" + Flag(l.searchable));
    ThenOneLine("imm=" + Flag(l.immutable), LastFlags(l));
    ThenOneLine("uniq=" + Flag(l.unique), Then("imm=" + Flag(l.immutable), LastFlags(l)));
    ThenOneLine("req=" + Flag(l.required), LaterFlags(l));
  }

  lemma FieldOneLine(l: Line)
    requires Clean(l) && IsField(l)
    ensures '\n' !in Rest(l)
  {
    if l.FieldLine? { FlagsOneLine(l); }
    if l.OptionsLine? { JoinedPlain(l.options); }
    ThenOneLine(Tag(l), FieldRest(l));
    ThenOneLine(l.name, Then(Tag(l), FieldRest(l)));
  }

  lemma OtherOneLine(l: Line)
    requires Clean(l) && !IsField(l)
    ensures '\n' !in Rest(l)
  {
    match l
    case EntityLine(name, system) =>
      ThenOneLine("system", Flag(system));
      ThenOneLine(name, Then("system", Flag(system)));
    case EdgeLine(name, target, t, cascade) =>
      FlagOneLine("cascade=", cascade);
      ThenOneLine(t, "cascade=" + Flag(cascade));
      ThenOneLine(target, Then(t, "cascade=" + Flag(cascade)));
      ThenOneLine(name, Then(target, Then(t, "cascade=" + Flag(cascade))));
    case ActionLine(name, verb) =>
      ThenOneLine(name, verb);
    case PermLine(name, grant, subject) =>
      ThenOneLine(grant, subject);
      ThenOneLine(name, Then(grant, subject));
  }

  lemma OneLine(l: Line)
    requires Clean(l)
    ensures '\n' !in Text(l)
  {
    if IsField(l) { FieldOneLine(l); } else { OtherOneLine(l); }
    ThenOneLine(Word(l), Rest(l));
  }

  ghost predicate AllClean(ls: seq<Line>)
  {
    forall i :: 0 <= i < |ls| ==> Clean(ls[i])
  }

  lemma LastLine(a: string, x: string, b: string, y: string)
    requires '\n' !in x && '\n' !in y && (a == "" || a[|a| - 1] == '\n') && (b == "" || b[|b| - 1] == '\n')
    requires a + (x + ['\n']) == b + (y + ['\n'])
    ensures a == b && x == y
  {
    var all := a + (x + ['\n']);
    LineStart(a, x);
    LineStart(b, y);
    assert |a| == |b|;
    assert all[..|a|] == a && all[..|b|] == b;
    assert all[|a|..] == x + ['\n'] && all[|b|..] == y + ['\n'];
    assert (x + ['\n'])[..|x|] == x && (y + ['\n'])[..|y|] == y;
  }

  /** The last line starts after the last line break but one. */
  lemma LineStart(a: string, x: string)
    requires '\n' !in x && (a == "" || a[|a| - 1] == '\n')
    ensures var all := a + (x + ['\n']);
            && (|a| > 0 ==> all[|a| - 1] == '\n')
            && forall k :: |a| <= k < |all| - 1 ==> all[k] != '\n'
  {
    var all := a + (x + ['\n']);
    forall k | |a| <= k < |all| - 1 ensures all[k] != '\n' { assert all[k] == x[k - |a|]; }
  }

  lemma EndsLine(ts: seq<string>)
    ensures Lined(ts) == "" || Lined(ts)[|Lined(ts)| - 1] == '\n'
    ensures Lined(ts) == "" <==> ts == []
  { }

  lemma {:induction false} LinedTells(a: seq<string>, b: seq<string>)
    requires Lined(a) == Lined(b)
    requires (forall i :: 0 <= i < |a| ==> '\n' !in a[i]) && forall i :: 0 <= i < |b| ==> '\n' !in b[i]
    ensures a == b
  {
    EndsLine(a);
    EndsLine(b);
    if a != [] {
      var x, y := a[|a| - 1], b[|b| - 1];
      EndsLine(a[..|a| - 1]);
      EndsLine(b[..|b| - 1]);
      LastLine(Lined(a[..|a| - 1]), x, Lined(b[..|b| - 1]), y);
      LinedTells(a[..|a| - 1], b[..|b| - 1]);
      assert a == a[..|a| - 1] + [x] && b == b[..|b| - 1] + [y];
    }
  }

  lemma CleanTexts(ls: seq<Line>)
    requires AllClean(ls)
    ensures forall i :: 0 <= i < |Texts(ls)| ==> '\n' !in Texts(ls)[i]
  {
    forall i | 0 <= i < |ls| ensures '\n' !in Texts(ls)[i] { OneLine(ls[i]); }
  }

  /** The bytes of clean lines determine them. */
  lemma BytesTell(a: seq<Line>, b: seq<Line>)
    requires AllClean(a) && AllClean(b) && Bytes(a) == Bytes(b)
    ensures a == b
  {
    CleanTexts(a);
    CleanTexts(b);
    LinedTells(Texts(a), Texts(b));
    assert |Texts(a)| == |Texts(b)|;
    forall i | 0 <= i < |a| ensures a[i] == b[i] {
      assert Texts(a)[i] == Texts(b)[i];
      TextTells(a[i], b[i]);
    }
  }

  // ---------------------------------------------------------------------------
  // Schemas that keep clear of the separators.

  predicate NoBreaks(ss: seq<string>)
  {
    forall i :: 0 <= i < |ss| ==> '\n' !in ss[i]
  }

  predicate CleanField(f: Field)
  {
    && Plain(f.name) && Plain(f.fieldType) && f.fieldType != "options" && f.fieldType != "series" && Plain(f.link) && '\n' !in f.series
    && NoBreaks(f.options) && forall i :: 0 <= i < |f.options| ==> ',' !in f.options[i]
  }

  predicate CleanPermissions(p: Permissions)
  {
    && NoBreaks(p.create) && NoBreaks(p.read) && NoBreaks(p.write) && NoBreaks(p.delete)
    && forall n :: n in p.actions ==> Plain(n) && NoBreaks(p.actions[n])
  }

  /** Names, types, targets and grants without colons, options without commas, no line breaks. */
  ghost predicate CleanEntity(e: Entity)
  {
    && Plain(e.name)
    && (forall f :: f in e.fields ==> CleanField(f))
    && (forall x :: x in e.edges ==> Plain(x.name) && Plain(x.target) && Plain(x.edgeType))
    && (forall a :: a in e.actions ==> Plain(a.name) && '\n' !in a.verb)
    && CleanPermissions(e.permissions)
  }

  lemma SortedFrom(ss: seq<string>, i: nat) returns (k: nat)
    requires i < |Sort(Leq, ss)|
    ensures k < |ss| && ss[k] == Sort(Leq, ss)[i]
  {
    var x := Sort(Leq, ss)[i];
    assert x in multiset(Sort(Leq, ss));
    assert x in ss;
    k :| 0 <= k < |ss| && ss[k] == x;
  }

  lemma OptionsClean(f: Field)
    requires CleanField(f)
    ensures AllLines(Clean, OptionsPart(f))
  {
    var sorted := Sort(Leq, f.options);
    forall i | 0 <= i < |sorted| ensures ',' !in sorted[i] && '\n' !in sorted[i] { var k := SortedFrom(f.options, i); }
    assert f.options != [] ==> Clean(OptionsLine(f.name, sorted));
  }

  lemma FieldLinesClean(f: Field)
    requires CleanField(f)
    ensures AllLines(Clean, FieldLines(f))
  {
    OptionsClean(f);
    assert AllLines(Clean, [FieldHead(f)]);
    assert AllLines(Clean, LinkPart(f));
    assert AllLines(Clean, SeriesPart(f));
    KindOfFive(Clean, [FieldHead(f)], OptionsPart(f), LinkPart(f), SeriesPart(f), []);
    assert FieldLines(f) + [] == FieldLines(f);
  }

  lemma PermLinesClean(entity: string, grant: string, subjects: seq<string>)
    requires Plain(entity) && Plain(grant) && NoBreaks(subjects)
    ensures AllLines(Clean, PermLines(entity, grant, subjects))
  {
    var sorted := Sort(Leq, subjects);
    forall i | 0 <= i < |sorted| ensures '\n' !in sorted[i] { var k := SortedFrom(subjects, i); }
  }

  lemma {:induction false} ActionPermsClean(entity: string, actions: map<string, seq<string>>, names: seq<string>)
    requires Plain(entity) && forall i :: 0 <= i < |names| ==> Plain(names[i]) && (names[i] in actions ==> NoBreaks(actions[names[i]]))
    ensures AllLines(Clean, ActionPerms(entity, actions, names))
  {
    if names != [] {
      var last := names[|names| - 1];
      ActionPermsClean(entity, actions, names[..|names| - 1]);
      PermLinesClean(entity, last, if last in actions then actions[last] else []);
    }
  }

  lemma AllPermsClean(entity: string, p: Permissions)
    requires Plain(entity) && CleanPermissions(p)
    ensures AllLines(Clean, AllPerms(entity, p))
  {
    var names := SortedSet(p.actions.Keys);
    assert forall i :: 0 <= i < |names| ==> names[i] in Elems(names);
    PermLinesClean(entity, "create", p.create);
    PermLinesClean(entity, "read", p.read);
    PermLinesClean(entity, "write", p.write);
    PermLinesClean(entity, "delete", p.delete);
    ActionPermsClean(entity, p.actions, names);
    KindOfFive(Clean, PermLines(entity, "create", p.create), PermLines(entity, "read", p.read), PermLines(entity, "write", p.write),
               PermLines(entity, "delete", p.delete), ActionPerms(entity, p.actions, names));
  }

  lemma EntityLinesClean(e: Entity)
    requires CleanEntity(e)
    ensures AllLines(Clean, EntityLines(e))
  {
    forall f | f in e.fields ensures AllLines(Clean, FieldLines(f)) { FieldLinesClean(f); }
    ListingLines(Clean, FieldName, FieldLines, e.fields);
    ListingLines(Clean, EdgeName, EdgeLines, e.edges);
    ListingLines(Clean, ActionName, ActionLines, e.actions);
    AllPermsClean(e.name, e.permissions);
    KindOfFive(Clean, [EntityLine(e.name, e.isSystem)], Listing(FieldName, FieldLines, e.fields), Listing(EdgeName, EdgeLines, e.edges),
               Listing(ActionName, ActionLines, e.actions), AllPerms(e.name, e.permissions));
  }

  lemma StreamClean(entities: seq<Entity>)
    requires forall e :: e in entities ==> CleanEntity(e)
    ensures AllClean(Stream(entities))
  {
    forall e | e in entities ensures AllLines(Clean, EntityLines(e)) { EntityLinesClean(e); }
    ListingLines(Clean, EntityName, EntityLines, entities);
  }

  /** What a caller can check of a schema: names distinct in each list, no action grant empty or
      named like an operation, and texts that keep clear of the separators. */
  ghost predicate Tidy(entities: seq<Entity>)
  {
    DistinctKeys(EntityName, entities) && forall e :: e in entities ==> Orderly(e) && CleanEntity(e)
  }

  /** Without that condition two option lists can have the same bytes. */
  lemma CommaIsAmbiguous(name: string)
    ensures Text(OptionsLine(name, ["a,b"])) == Text(OptionsLine(name, ["a", "b"]))
  {
    assert ["a", "b"][1..] == ["b"];
    assert Joined(["a", "b"]) == "a" + [','] + "b" == "a,b";
  }

  /** The bytes that are hashed tell schemas apart exactly up to order and display data. */
  lemma HashedBytesIff(s: seq<Entity>, t: seq<Entity>)
    requires Tidy(s) && Tidy(t)
    ensures Bytes(Stream(s)) == Bytes(Stream(t)) <==> SameItems(SameEntity, s, t)
  {
    StreamIff(s, t);
    StreamClean(s);
    StreamClean(t);
    if Bytes(Stream(s)) == Bytes(Stream(t)) { BytesTell(Stream(s), Stream(t)); }
  }
}
