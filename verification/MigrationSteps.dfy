/** Reading a module's numbered scripts: readSteps and parseSQLFilename in
    awo/migration/migration.go. */
module MigrationSteps {
  import opened Options
  import opened Names
  import opened Decimal

  /** A directory entry; `data` is absent when the file cannot be read. */
  datatype Entry = Entry(name: string, isDir: bool, data: Option<string>)

  datatype Script = Script(num: int, desc: string, up: bool)

  /** One numbered migration step of a module. */
  datatype Step = Step(localNum: int, name: string, up: string, down: string)

  datatype Result = Steps(steps: seq<Step>) | Unlistable | Unreadable(name: string) | NoUpScript(num: int)

  /** Strictly ascending step numbers between 1 and 999. */
  ghost predicate ValidNumbers(steps: seq<Step>)
  {
    && (forall i :: 0 <= i < |steps| ==> 1 <= steps[i].localNum <= 999)
    && (forall i, j :: 0 <= i < j < |steps| ==> steps[i].localNum < steps[j].localNum)
  }

  // ---------------------------------------------------------------------------
  // File names.

  predicate HasSuffix(s: string, suffix: string)
  {
    |suffix| <= |s| && s[|s| - |suffix|..] == suffix
  }

  function TrimSuffix(s: string, suffix: string): string
    requires HasSuffix(s, suffix)
  {
    s[..|s| - |suffix|]
  }

  /** strconv.Atoi: an optional sign and one or more digits. */
  function Atoi(s: string): Option<int>
  {
    var digits := if s != "" && (s[0] == '+' || s[0] == '-') then s[1..] else s;
    if digits == "" || !AllDigits(digits) then None
    else
      var value: int := NumberOf(digits);
      Some(if s[0] == '-' then -value else value)
  }

  /** `NNN_description`, with NNN from 1 to 999. */
  function ParseStem(stem: string, up: bool): Option<Script>
  {
    var idx := Index(stem, '_');
    if idx < 1 then None
    else
      var n := Atoi(stem[..idx]);
      if n.None? || n.value < 1 || n.value > 999 then None else Some(Script(n.value, stem[idx + 1..], up))
  }

  function ParseFileName(name: string): Option<Script>
  {
    if !HasSuffix(name, ".sql") then None
    else
      var stem := TrimSuffix(name, ".sql");
      if HasSuffix(stem, ".up") then ParseStem(TrimSuffix(stem, ".up"), true)
      else if HasSuffix(stem, ".down") then ParseStem(TrimSuffix(stem, ".down"), false)
      else None
  }

  /** The name of a script, its number printed with at least `w` digits. */
  function FileName(w: nat, s: Script): string
    requires s.num >= 0
  {
    Pad(w, s.num) + ['_'] + s.desc + (if s.up then ".up" else ".down") + ".sql"
  }

  lemma SuffixSplits(s: string, suffix: string)
    ensures HasSuffix(s + suffix, suffix) && TrimSuffix(s + suffix, suffix) == s
  { }

  lemma SuffixJoins(s: string, suffix: string)
    requires HasSuffix(s, suffix)
    ensures s == TrimSuffix(s, suffix) + suffix
  { }

  lemma DownIsNotUp(s: string)
    ensures !HasSuffix(s + ".down", ".up")
  {
    var t := s + ".down";
    assert t[|t| - 3..][2] == 'n' && ".up"[2] == 'p';
  }

  lemma NumberReadsBack(w: nat, n: nat)
    ensures Atoi(Pad(w, n)) == Some(n) && Pad(w, n) != "" && '_' !in Pad(w, n)
  {
    var s := Pad(w, n);
    ReadBack(|s|, n);
    assert IsDigit(s[0]);
  }

  lemma StemReadsBack(w: nat, num: nat, desc: string, up: bool)
    requires 1 <= num <= 999
    ensures ParseStem(Pad(w, num) + ['_'] + desc, up) == Some(Script(num, desc, up))
  {
    var digits := Pad(w, num);
    var stem := digits + ['_'] + desc;
    NumberReadsBack(w, num);
    FirstAt(digits, '_', desc);
    assert stem[..|digits|] == digits && stem[|digits| + 1..] == desc;
  }

  /** Names written by the convention read back, whatever the description and the padding. */
  lemma FileNameReadsBack(w: nat, s: Script)
    requires 1 <= s.num <= 999
    ensures ParseFileName(FileName(w, s)) == Some(s)
  {
    var stem := Pad(w, s.num) + ['_'] + s.desc;
    var direction := if s.up then ".up" else ".down";
    SuffixSplits(stem + direction, ".sql");
    SuffixSplits(stem, direction);
    if !s.up { DownIsNotUp(stem); }
    StemReadsBack(w, s.num, s.desc, s.up);
  }

  // ---------------------------------------------------------------------------
  // The naming convention, said without the parser.

  /** One or more digits, perhaps after a plus sign, that denote `n`. */
  ghost predicate Denotes(digits: string, n: int)
  {
    || (digits != "" && AllDigits(digits) && NumberOf(digits) == n)
    || (|digits| > 1 && digits[0] == '+' && AllDigits(digits[1..]) && NumberOf(digits[1..]) == n)
  }

  /** A number from 1 to 999, an underscore and a description. */
  ghost predicate Stem(stem: string, num: int, desc: string)
  {
    1 <= num <= 999 && exists digits :: Denotes(digits, num) && stem == digits + ['_'] + desc
  }

  /** The naming convention: such a stem and the direction. */
  ghost predicate Convention(name: string, s: Script)
  {
    exists stem :: Stem(stem, s.num, s.desc) && name == stem + (if s.up then ".up.sql" else ".down.sql")
  }

  lemma AtoiIff(digits: string, n: int)
    requires n > 0
    ensures Atoi(digits) == Some(n) <==> Denotes(digits, n)
  {
    if digits != "" && (digits[0] == '+' || digits[0] == '-') {
      assert !IsDigit(digits[0]);
      assert digits[1..] == "" <==> |digits| == 1;
    }
  }

  lemma DenotesNoUnderscore(digits: string, n: int)
    requires Denotes(digits, n)
    ensures '_' !in digits && digits != ""
  {
    if !AllDigits(digits) { assert digits == ['+'] + digits[1..]; }
  }

  lemma ParsedStem(stem: string, s: Script)
    requires ParseStem(stem, s.up) == Some(s)
    ensures Stem(stem, s.num, s.desc)
  {
    var idx := Index(stem, '_');
    AtoiIff(stem[..idx], s.num);
    assert stem == stem[..idx] + ['_'] + s.desc;
  }

  lemma StemParses(stem: string, s: Script)
    requires Stem(stem, s.num, s.desc)
    ensures ParseStem(stem, s.up) == Some(s)
  {
    var digits :| Denotes(digits, s.num) && stem == digits + ['_'] + s.desc;
    DenotesNoUnderscore(digits, s.num);
    FirstAt(digits, '_', s.desc);
    AtoiIff(digits, s.num);
    assert stem[..|digits|] == digits && stem[|digits| + 1..] == s.desc;
  }

  lemma SuffixesJoin(stem: string, direction: string)
    ensures (stem + direction) + ".sql" == stem + (direction + ".sql")
  { }

  lemma NameParsed(name: string, s: Script)
    requires ParseFileName(name) == Some(s)
    ensures Convention(name, s)
  {
    var inner := TrimSuffix(name, ".sql");
    if HasSuffix(inner, ".up") {
      ParsedStem(TrimSuffix(inner, ".up"), s);
      NameJoined(name, ".up", s);
    } else {
      ParsedStem(TrimSuffix(inner, ".down"), s);
      NameJoined(name, ".down", s);
    }
  }

  lemma NameJoined(name: string, direction: string, s: Script)
    requires direction == (if s.up then ".up" else ".down")
    requires HasSuffix(name, ".sql") && HasSuffix(TrimSuffix(name, ".sql"), direction)
    requires Stem(TrimSuffix(TrimSuffix(name, ".sql"), direction), s.num, s.desc)
    ensures Convention(name, s)
  {
    var stem := TrimSuffix(TrimSuffix(name, ".sql"), direction);
    SuffixJoins(name, ".sql");
    SuffixJoins(TrimSuffix(name, ".sql"), direction);
    SuffixesJoin(stem, direction);
    assert direction + ".sql" == if s.up then ".up.sql" else ".down.sql";
  }

  lemma ConventionParses(name: string, s: Script)
    requires Convention(name, s)
    ensures ParseFileName(name) == Some(s)
  {
    var stem :| Stem(stem, s.num, s.desc) && name == stem + (if s.up then ".up.sql" else ".down.sql");
    var direction := if s.up then ".up" else ".down";
    assert direction + ".sql" == if s.up then ".up.sql" else ".down.sql";
    SuffixesJoin(stem, direction);
    SuffixSplits(stem + direction, ".sql");
    SuffixSplits(stem, direction);
    if !s.up { DownIsNotUp(stem); }
    StemParses(stem, s);
  }

  /** A name is read as a script exactly when it is named by the convention. */
  lemma FileNameIff(name: string, s: Script)
    ensures ParseFileName(name) == Some(s) <==> Convention(name, s)
  {
    if ParseFileName(name) == Some(s) { NameParsed(name, s); }
    if Convention(name, s) { ConventionParses(name, s); }
  }

  // ---------------------------------------------------------------------------
  // What the directory says about each number.

  /** The script a directory entry holds, if any. */
  function ScriptOf(e: Entry): Option<Script>
  {
    if e.isDir then None else ParseFileName(e.name)
  }

  /** Exactly the files named by the convention are scripts. */
  lemma ScriptOfIff(e: Entry, s: Script)
    ensures ScriptOf(e) == Some(s) <==> !e.isDir && Convention(e.name, s)
  {
    FileNameIff(e.name, s);
  }

  predicate Numbered(e: Entry, num: int)
  {
    ScriptOf(e).Some? && ScriptOf(e).value.num == num
  }

  ghost function Numbers(es: seq<Entry>): set<int>
  {
    set e | e in es && ScriptOf(e).Some? :: ScriptOf(e).value.num
  }

  ghost predicate AllReadable(es: seq<Entry>)
  {
    forall e :: e in es && ScriptOf(e).Some? ==> e.data.Some?
  }

  function Text(e: Entry): string
  {
    if e.data.Some? then e.data.value else ""
  }

  /** The text of the last script with this number and direction, empty when there is none. */
  function LastText(es: seq<Entry>, num: int, up: bool): string
  {
    if es == [] then ""
    else
      var last := es[|es| - 1];
      if Numbered(last, num) && ScriptOf(last).value.up == up then Text(last) else LastText(es[..|es| - 1], num, up)
  }

  /** The description of the first script with this number. */
  function FirstDesc(es: seq<Entry>, num: int): string
  {
    if es == [] then "" else if Numbered(es[0], num) then ScriptOf(es[0]).value.desc else FirstDesc(es[1..], num)
  }

  function StepFor(es: seq<Entry>, num: int): Step
  {
    Step(num, FirstDesc(es, num), LastText(es, num, true), LastText(es, num, false))
  }

  ghost predicate AllHaveUp(es: seq<Entry>)
  {
    forall num :: num in Numbers(es) ==> LastText(es, num, true) != ""
  }

  lemma NumbersAppend(es: seq<Entry>, e: Entry)
    ensures Numbers(es + [e]) == if ScriptOf(e).Some? then Numbers(es) + {ScriptOf(e).value.num} else Numbers(es)
  {
    assert forall x :: x in es + [e] <==> x in es || x == e;
  }

  lemma LastTextAppend(es: seq<Entry>, e: Entry, num: int, up: bool)
    ensures LastText(es + [e], num, up) ==
            if Numbered(e, num) && ScriptOf(e).value.up == up then Text(e) else LastText(es, num, up)
  {
    assert (es + [e])[..|es|] == es;
  }

  lemma {:induction false} FirstDescAppend(es: seq<Entry>, e: Entry, num: int)
    ensures FirstDesc(es + [e], num) ==
            if num in Numbers(es) then FirstDesc(es, num) else if Numbered(e, num) then ScriptOf(e).value.desc else ""
  {
    if es == [] {
      assert ([] + [e])[1..] == [];
    } else {
      assert (es + [e])[1..] == es[1..] + [e] && es == [es[0]] + es[1..];
      FirstDescAppend(es[1..], e, num);
    }
  }

  // ---------------------------------------------------------------------------
  // The loops.

  /** The map from numbers to steps holds what the entries read so far say. */
  ghost predicate Collected(es: seq<Entry>, byNum: map<int, Step>)
  {
    byNum.Keys == Numbers(es) && forall num :: num in byNum ==> byNum[num] == StepFor(es, num)
  }

  /** One script added to the step of its number. */
  function AddScript(byNum: map<int, Step>, s: Script, data: string): map<int, Step>
  {
    var step := if s.num in byNum then byNum[s.num] else Step(s.num, s.desc, "", "");
    byNum[s.num := if s.up then step.(up := data) else step.(down := data)]
  }

  lemma {:induction false} NoText(es: seq<Entry>, num: int, up: bool)
    requires num !in Numbers(es)
    ensures LastText(es, num, up) == ""
  {
    if es != [] {
      var init, last := es[..|es| - 1], es[|es| - 1];
      assert es == init + [last];
      NumbersAppend(init, last);
      NoText(init, num, up);
    }
  }

  lemma CollectOne(es: seq<Entry>, e: Entry, byNum: map<int, Step>)
    requires Collected(es, byNum)
    ensures ScriptOf(e).None? ==> Collected(es + [e], byNum)
    ensures ScriptOf(e).Some? ==> Collected(es + [e], AddScript(byNum, ScriptOf(e).value, Text(e)))
  {
    NumbersAppend(es, e);
    forall num ensures num in Numbers(es) && !Numbered(e, num) ==> StepFor(es + [e], num) == StepFor(es, num) {
      StepAfter(es, e, num);
    }
    if ScriptOf(e).Some? {
      var s := ScriptOf(e).value;
      StepAfter(es, e, s.num);
      if s.num !in Numbers(es) {
        NoText(es, s.num, true);
        NoText(es, s.num, false);
      }
    }
  }

  lemma StepAfter(es: seq<Entry>, e: Entry, num: int)
    ensures var s, t := StepFor(es, num), StepFor(es + [e], num);
            && t.up == (if Numbered(e, num) && ScriptOf(e).value.up then Text(e) else s.up)
            && t.down == (if Numbered(e, num) && !ScriptOf(e).value.up then Text(e) else s.down)
            && t.name == (if num in Numbers(es) then s.name else if Numbered(e, num) then ScriptOf(e).value.desc else "")
  {
    LastTextAppend(es, e, num, true);
    LastTextAppend(es, e, num, false);
    FirstDescAppend(es, e, num);
  }

  /** The loop over directory entries (migration.go:262-287). */
  method Collect(entries: seq<Entry>) returns (r: Option<map<int, Step>>, unreadable: string)
    ensures r.Some? <==> AllReadable(entries)
    ensures r.Some? ==> Collected(entries, r.value)
    ensures r.None? ==> exists e :: e in entries && e.name == unreadable && ScriptOf(e).Some? && e.data.None?
  {
    var byNum: map<int, Step> := map[];
    for i := 0 to |entries|
      invariant Collected(entries[..i], byNum) && AllReadable(entries[..i])
    {
      var e := entries[i];
      assert entries[..i + 1] == entries[..i] + [e];
      CollectOne(entries[..i], e, byNum);
      var s := ScriptOf(e);
      if s.Some? {
        if e.data.None? {
          assert e in entries;
          return None, e.name;
        }
        byNum := AddScript(byNum, s.value, e.data.value);
      }
    }
    assert entries[..|entries|] == entries;
    r, unreadable := Some(byNum), "";
  }

  predicate ByNumber(a: Step, b: Step)
  {
    a.localNum <= b.localNum
  }

  ghost predicate DistinctNumbers(steps: seq<Step>)
  {
    forall i, j :: 0 <= i < j < |steps| ==> steps[i].localNum != steps[j].localNum
  }

  /** The loop over the map, in any order (migration.go:289-295). */
  method Gather(byNum: map<int, Step>) returns (ok: bool, steps: seq<Step>, missing: int)
    requires forall num :: num in byNum ==> byNum[num].localNum == num
    ensures ok <==> forall num :: num in byNum ==> byNum[num].up != ""
    ensures ok ==> DistinctNumbers(steps) && forall s :: s in steps <==> s.localNum in byNum && byNum[s.localNum] == s
    ensures !ok ==> missing in byNum && byNum[missing].up == ""
  {
    steps, missing := [], 0;
    var rest := byNum.Items;
    while rest != {}
      invariant rest <= byNum.Items && DistinctNumbers(steps)
      invariant forall s :: s in steps <==> (s.localNum, s) in byNum.Items - rest
      invariant forall item :: item in byNum.Items - rest ==> item.1.up != ""
    {
      var item :| item in rest;
      var (num, step) := item;
      assert item == (num, step) && num in byNum && byNum[num] == step;
      if step.up == "" { return false, steps, num; }
      assert forall k :: 0 <= k < |steps| ==> steps[k] in steps;
      steps, rest := steps + [step], rest - {item};
    }
    assert forall num :: num in byNum ==> (num, byNum[num]) in byNum.Items;
    ok := true;
  }

  lemma SortNumbers(steps: seq<Step>)
    requires DistinctNumbers(steps)
    ensures var r := Sort(ByNumber, steps);
            && (forall s :: s in r <==> s in steps)
            && forall i, j :: 0 <= i < j < |r| ==> r[i].localNum < r[j].localNum
  {
    var r := Sort(ByNumber, steps);
    SortIsSorted(ByNumber, steps);
    assert forall s :: s in r <==> s in multiset(r);
    assert forall s :: s in steps <==> s in multiset(steps);
    PermutedDistinct(steps, r);
    forall i, j | 0 <= i < j < |r| ensures r[i].localNum < r[j].localNum {
      assert r[i] in steps && r[j] in steps && r[i] != r[j] && ByNumber(r[i], r[j]);
    }
  }

  lemma NumbersInRange(es: seq<Entry>)
    ensures forall num :: num in Numbers(es) ==> 1 <= num <= 999
  { }

  /** The step the directory has under a number. */
  ghost predicate StepOf(es: seq<Entry>, s: Step)
  {
    s.localNum in Numbers(es) && s == StepFor(es, s.localNum)
  }

  /** The steps of the numbers from `from` on, ascending. */
  ghost function StepsFrom(es: seq<Entry>, from: nat): seq<Step>
    decreases 1000 - from
  {
    if from > 999 then []
    else if StepOf(es, StepFor(es, from)) then [StepFor(es, from)] + StepsFrom(es, from + 1)
    else StepsFrom(es, from + 1)
  }

  /** A module's directory, absent when it cannot be listed, holds readable scripts with something
      to apply under every number. */
  ghost predicate Readable(fs: Option<seq<Entry>>)
  {
    fs.Some? && AllReadable(fs.value) && AllHaveUp(fs.value)
  }

  /** The steps of a module's directory. */
  ghost function StepsIn(fs: Option<seq<Entry>>): seq<Step>
  {
    if Readable(fs) then StepsFrom(fs.value, 1) else []
  }

  lemma {:induction false} StepsFromFacts(es: seq<Entry>, from: nat)
    requires from >= 1
    ensures ValidNumbers(StepsFrom(es, from))
    ensures forall s :: s in StepsFrom(es, from) <==> StepOf(es, s) && from <= s.localNum
    decreases 1000 - from
  {
    if from <= 999 {
      StepsFromFacts(es, from + 1);
      AddFirst(s => StepOf(es, s), from, StepFor(es, from), StepsFrom(es, from + 1));
    } else {
      NumbersInRange(es);
    }
  }

  /** Putting the element numbered `from` in front of those with larger numbers. */
  lemma AddFirst(p: Step -> bool, from: nat, first: Step, rest: seq<Step>)
    requires 1 <= from <= 999 && ValidNumbers(rest) && first.localNum == from
    requires forall s :: s in rest <==> p(s) && from + 1 <= s.localNum
    requires forall s :: p(s) && s.localNum == from ==> s == first
    ensures var all := if p(first) then [first] + rest else rest;
            ValidNumbers(all) && forall s :: s in all <==> p(s) && from <= s.localNum
  {
    assert forall i :: 0 <= i < |rest| ==> rest[i] in rest;
    ConsValid(first, rest);
    FirstMember(p, from, first, rest);
  }

  lemma ConsValid(first: Step, rest: seq<Step>)
    requires 1 <= first.localNum <= 999 && ValidNumbers(rest) && forall i :: 0 <= i < |rest| ==> first.localNum < rest[i].localNum
    ensures ValidNumbers([first] + rest)
  { }

  lemma FirstMember(p: Step -> bool, from: nat, first: Step, rest: seq<Step>)
    requires first.localNum == from
    requires forall s :: s in rest <==> p(s) && from + 1 <= s.localNum
    requires forall s :: p(s) && s.localNum == from ==> s == first
    ensures forall s :: s in (if p(first) then [first] + rest else rest) <==> p(s) && from <= s.localNum
  {
    assert forall s :: s in [first] + rest <==> s == first || s in rest;
  }

  lemma {:induction false} AscendingUnique(a: seq<Step>, b: seq<Step>)
    requires ValidNumbers(a) && ValidNumbers(b) && forall s :: s in a <==> s in b
    ensures a == b
  {
    if a == [] {
      NoElems(b);
    } else {
      assert a[0] in b && |b| > 0 && b[0] in a;
      assert a[0] == b[0];
      assert a == [a[0]] + a[1..] && b == [b[0]] + b[1..];
      TailElements(a);
      TailElements(b);
      AscendingUnique(a[1..], b[1..]);
    }
  }

  lemma TailElements(a: seq<Step>)
    requires ValidNumbers(a) && a != []
    ensures forall s :: s in a[1..] <==> s in a && s != a[0]
  {
    assert a == [a[0]] + a[1..];
  }

  /** Fails exactly when the directory cannot be listed, a script cannot be read or a number has no
      text to apply; otherwise returns one step per number that occurs, ascending, with the texts and
      the description the directory gives it. */
  method ReadSteps(fs: Option<seq<Entry>>) returns (r: Result)
    ensures r.Steps? <==> Readable(fs)
    ensures r.Steps? ==> r.steps == StepsIn(fs)
    ensures r.Unlistable? <==> fs.None?
    ensures r.Unreadable? <==> fs.Some? && !AllReadable(fs.value)
    ensures r.NoUpScript? ==> r.num in Numbers(fs.value) && LastText(fs.value, r.num, true) == ""
  {
    if fs.None? { return Unlistable; }
    var byNum, unreadable := Collect(fs.value);
    if byNum.None? { return Unreadable(unreadable); }
    var ok, steps, missing := Gather(byNum.value);
    if !ok { return NoUpScript(missing); }
    SortNumbers(steps);
    var sorted := Sort(ByNumber, steps);
    SortedAreSteps(fs.value, byNum.value, sorted);
    r := Steps(sorted);
  }

  lemma SortedAreSteps(es: seq<Entry>, byNum: map<int, Step>, sorted: seq<Step>)
    requires Collected(es, byNum)
    requires forall s :: s in sorted <==> s.localNum in byNum && byNum[s.localNum] == s
    requires forall i, j :: 0 <= i < j < |sorted| ==> sorted[i].localNum < sorted[j].localNum
    ensures sorted == StepsFrom(es, 1)
  {
    NumbersInRange(es);
    StepsFromFacts(es, 1);
    assert forall i :: 0 <= i < |sorted| ==> sorted[i] in sorted;
    AscendingUnique(sorted, StepsFrom(es, 1));
  }

  /** What is known of the steps of any directory. */
  lemma StepsInFacts(fs: Option<seq<Entry>>)
    ensures ValidNumbers(StepsIn(fs)) && forall s :: s in StepsIn(fs) ==> s.up != ""
    ensures Readable(fs) ==> forall s :: s in StepsIn(fs) <==> StepOf(fs.value, s)
  {
    if Readable(fs) {
      NumbersInRange(fs.value);
      StepsFromFacts(fs.value, 1);
    }
  }

  /** A directory with one script. */
  function OneScript(num: nat, desc: string, text: string): Option<seq<Entry>>
  {
    Some([Entry(FileName(3, Script(num, desc, true)), false, Some(text))])
  }

  lemma OneScriptSteps(num: nat, desc: string, text: string)
    requires 1 <= num <= 999 && text != ""
    ensures Readable(OneScript(num, desc, text)) && StepsIn(OneScript(num, desc, text)) == [Step(num, desc, text, "")]
  {
    var fs := OneScript(num, desc, text);
    var e := fs.value[0];
    FileNameReadsBack(3, Script(num, desc, true));
    OneEntry(e, num, desc, text);
    OneNumber(fs, e, Step(num, desc, text, ""));
  }

  lemma OneNumber(fs: Option<seq<Entry>>, e: Entry, step: Step)
    requires fs == Some([e]) && e.data.Some? && Numbers([e]) == {step.localNum} && StepFor([e], step.localNum) == step
    requires 1 <= step.localNum <= 999 && step.up != ""
    ensures Readable(fs) && StepsIn(fs) == [step]
  {
    StepsInFacts(fs);
    AscendingUnique(StepsIn(fs), [step]);
  }

  lemma OneEntry(e: Entry, num: int, desc: string, text: string)
    requires ScriptOf(e) == Some(Script(num, desc, true)) && e.data == Some(text)
    ensures Numbers([e]) == {num} && StepFor([e], num) == Step(num, desc, text, "")
  {
    assert [] + [e] == [e];
    NumbersAppend([], e);
    StepAfter([], e, num);
  }
}
