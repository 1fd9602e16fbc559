/** Global migration versions and the virtual directory: BuildFSFrom and memDir in
    awo/migration/migration.go. */
module MigrationFiles {
  import opened Options
  import opened Names
  import opened Digraph
  import opened Decimal
  import opened MigrationSteps
  import opened MigrationSort

  /** One step of one module. */
  datatype Item = Item(src: Source, step: Step)
  {
    /** `Priority*1000 + step`. */
    function Version(): int
    {
      src.priority * 1000 + step.localNum
    }

    function FileName(suffix: string): string
    {
      VersionText(Version()) + ("_" + (src.moduleName + "_" + step.name + suffix))
    }

    function UpName(): string
    {
      FileName(".up.sql")
    }

    function DownName(): string
    {
      FileName(".down.sql")
    }
  }

  /** `%06d`; the sign of a negative version counts towards the width. */
  function VersionText(v: int): string
  {
    if v >= 0 then Pad(6, v) else "-" + Pad(5, -v)
  }

  datatype BuildResult =
    | Built(files: map<string, string>)
    | Collision
    | NoSteps(moduleName: string)
    | Unordered(outcome: Outcome)

  ghost function StepItems(src: Source, steps: seq<Step>): seq<Item>
  {
    seq(|steps|, i requires 0 <= i < |steps| => Item(src, steps[i]))
  }

  /** The steps of one module's directory. */
  ghost function ModuleItems(src: Source): seq<Item>
  {
    StepItems(src, StepsIn(src.fs))
  }

  /** All steps, module by module. */
  ghost function Items(sources: seq<Source>): seq<Item>
  {
    if sources == [] then []
    else var last := sources[|sources| - 1]; Items(sources[..|sources| - 1]) + ModuleItems(last)
  }

  ghost predicate DistinctVersions(items: seq<Item>)
  {
    forall i, j :: 0 <= i < j < |items| ==> items[i].Version() != items[j].Version()
  }

  function AddFiles(files: map<string, string>, item: Item): map<string, string>
  {
    var m := files[item.UpName() := item.step.up];
    if item.step.down != "" then m[item.DownName() := item.step.down] else m
  }

  ghost function Files(items: seq<Item>): map<string, string>
  {
    if items == [] then map[] else AddFiles(Files(items[..|items| - 1]), items[|items| - 1])
  }

  ghost function Versions(items: seq<Item>): set<int>
  {
    set x | x in items :: x.Version()
  }

  lemma AppendItem(items: seq<Item>, x: Item)
    ensures Files(items + [x]) == AddFiles(Files(items), x)
    ensures Versions(items + [x]) == Versions(items) + {x.Version()}
    ensures DistinctVersions(items + [x]) <==> DistinctVersions(items) && x.Version() !in Versions(items)
  {
    var l := items + [x];
    assert l[..|items|] == items;
    assert forall y :: y in l <==> y in items || y == x;
    if DistinctVersions(l) {
      forall i, j | 0 <= i < j < |items| ensures items[i].Version() != items[j].Version() { assert l[i] == items[i] && l[j] == items[j]; }
      forall y | y in items ensures y.Version() != x.Version() {
        var i :| 0 <= i < |items| && items[i] == y;
        assert l[i] == y && l[|items|] == x;
      }
    }
  }

  /** A clash among the first items is a clash among all. */
  lemma ClashStays(items: seq<Item>, more: seq<Item>)
    requires !DistinctVersions(items)
    ensures !DistinctVersions(items + more)
  {
    var i, j :| 0 <= i < j < |items| && items[i].Version() == items[j].Version();
    var l := items + more;
    assert l[i] == items[i] && l[j] == items[j];
  }

  lemma StepsSplit(done: seq<Item>, src: Source, steps: seq<Step>, j: nat)
    requires j < |steps|
    ensures done + StepItems(src, steps[..j]) + [Item(src, steps[j])] == done + StepItems(src, steps[..j + 1])
    ensures done + StepItems(src, steps[..j]) + [Item(src, steps[j])] + StepItems(src, steps)[j + 1..] == done + StepItems(src, steps)
  {
    assert StepItems(src, steps[..j + 1]) == StepItems(src, steps[..j]) + [Item(src, steps[j])];
    assert StepItems(src, steps) == StepItems(src, steps[..j + 1]) + StepItems(src, steps)[j + 1..];
  }

  /** The loop over one module's steps (migration.go:123-136). */
  method AddSteps(src: Source, steps: seq<Step>, mem: map<string, string>, used: set<int>, ghost done: seq<Item>)
    returns (ok: bool, mem': map<string, string>, used': set<int>)
    requires mem == Files(done) && used == Versions(done) && DistinctVersions(done)
    ensures ok <==> DistinctVersions(done + StepItems(src, steps))
    ensures ok ==> mem' == Files(done + StepItems(src, steps)) && used' == Versions(done + StepItems(src, steps))
  {
    mem', used' := mem, used;
    ghost var all := done;
    assert done + StepItems(src, steps[..0]) == done;
    for j := 0 to |steps|
      invariant all == done + StepItems(src, steps[..j])
      invariant mem' == Files(all) && used' == Versions(all) && DistinctVersions(all)
    {
      var item := Item(src, steps[j]);
      AppendItem(all, item);
      StepsSplit(done, src, steps, j);
      if item.Version() in used' {
        ClashStays(all + [item], StepItems(src, steps)[j + 1..]);
        return false, mem', used';
      }
      used', mem' := used' + {item.Version()}, AddFiles(mem', item);
      all := all + [item];
    }
    assert steps[..|steps|] == steps;
    ok := true;
  }

  /** The body of BuildFSFrom's outer loop (migration.go:119-136). */
  method AddModule(src: Source, mem: map<string, string>, used: set<int>, ghost done: seq<Item>)
    returns (read: bool, ok: bool, mem': map<string, string>, used': set<int>)
    requires mem == Files(done) && used == Versions(done) && DistinctVersions(done)
    ensures read <==> Readable(src.fs)
    ensures read ==> (ok <==> DistinctVersions(done + ModuleItems(src)))
    ensures read && ok ==> mem' == Files(done + ModuleItems(src)) && used' == Versions(done + ModuleItems(src))
  {
    ok, mem', used' := false, mem, used;
    var r := ReadSteps(src.fs);
    read := r.Steps?;
    if read { ok, mem', used' := AddSteps(src, r.steps, mem, used, done); }
  }

  /** The nested loops of BuildFSFrom over sorted sources (migration.go:112-138). */
  method Assemble(sorted: seq<Source>) returns (r: BuildResult)
    ensures !r.Unordered?
    ensures r.Built? <==> AllRead(sorted) && DistinctVersions(Items(sorted))
    ensures r.Built? ==> r.files == Files(Items(sorted))
    ensures r.Collision? ==> !DistinctVersions(Items(sorted))
    ensures r.NoSteps? ==> exists s :: s in sorted && s.moduleName == r.moduleName && !Readable(s.fs)
  {
    var mem: map<string, string>, used: set<int> := map[], {};
    ghost var done: seq<Item> := [];
    for i := 0 to |sorted|
      invariant done == Items(sorted[..i])
      invariant mem == Files(done) && used == Versions(done) && DistinctVersions(done)
      invariant AllRead(sorted[..i])
    {
      ItemsStep(sorted, i);
      var read, ok;
      read, ok, mem, used := AddModule(sorted[i], mem, used, done);
      if !read {
        assert sorted[i] in sorted;
        return NoSteps(sorted[i].moduleName);
      }
      if !ok { return Collision; }
      AllReadStep(sorted, i);
      done := done + ModuleItems(sorted[i]);
    }
    assert sorted[..|sorted|] == sorted;
    r := Built(mem);
  }

  ghost predicate AllRead(sources: seq<Source>)
  {
    forall s :: s in sources ==> Readable(s.fs)
  }

  lemma AllReadStep(sorted: seq<Source>, i: nat)
    requires i < |sorted| && AllRead(sorted[..i]) && Readable(sorted[i].fs)
    ensures AllRead(sorted[..i + 1])
  {
    assert sorted[..i + 1] == sorted[..i] + [sorted[i]];
    assert forall s :: s in sorted[..i + 1] <==> s in sorted[..i] || s == sorted[i];
  }

  lemma ItemsStep(sorted: seq<Source>, i: nat)
    requires i < |sorted|
    ensures Items(sorted[..i + 1]) == Items(sorted[..i]) + ModuleItems(sorted[i])
    ensures !DistinctVersions(Items(sorted[..i + 1])) ==> !DistinctVersions(Items(sorted))
  {
    assert sorted[..i + 1][..i] == sorted[..i];
    ItemsPrefix(sorted, i + 1);
    ClashInPrefix(Items(sorted[..i + 1]), Items(sorted));
  }

  lemma ClashInPrefix(head: seq<Item>, all: seq<Item>)
    requires head <= all
    ensures !DistinctVersions(head) ==> !DistinctVersions(all)
  {
    assert all == head + all[|head|..];
    if !DistinctVersions(head) { ClashStays(head, all[|head|..]); }
  }

  lemma {:induction false} ItemsPrefix(sorted: seq<Source>, k: nat)
    requires k <= |sorted|
    ensures Items(sorted[..k]) <= Items(sorted)
  {
    if k == |sorted| {
      assert sorted[..k] == sorted;
    } else {
      var init := sorted[..|sorted| - 1];
      ItemsPrefix(init, k);
      assert init[..k] == sorted[..k];
    }
  }

  lemma StepItemsMembers(src: Source, steps: seq<Step>)
    ensures forall x :: x in StepItems(src, steps) <==> x.src == src && x.step in steps
  {
    forall x: Item | x.src == src && x.step in steps ensures x in StepItems(src, steps) {
      var i :| 0 <= i < |steps| && steps[i] == x.step;
      assert StepItems(src, steps)[i] == x;
    }
  }

  lemma {:induction false} ItemsMembers(sources: seq<Source>)
    ensures forall x :: x in Items(sources) <==> x.src in sources && x.step in StepsIn(x.src.fs)
  {
    if sources != [] {
      var init, last := sources[..|sources| - 1], sources[|sources| - 1];
      ItemsMembers(init);
      assert sources == init + [last];
      StepItemsMembers(last, StepsIn(last.fs));
    }
  }

  /** Two of the modules claim one step number at one priority. */
  ghost predicate SharedNumber(sources: seq<Source>)
  {
    exists x, y :: Supplied(sources, x) && Supplied(sources, y) && x.src.moduleName != y.src.moduleName
                   && x.src.priority == y.src.priority && x.step.localNum == y.step.localNum
  }

  /** A step that one of the sources' directories holds. */
  ghost predicate Supplied(sources: seq<Source>, x: Item)
  {
    x.src in sources && x.step in StepsIn(x.src.fs)
  }

  /** Step numbers below 1000 make the version decodable. */
  lemma VersionDecodes(p: int, i: int, q: int, j: int)
    requires 1 <= i <= 999 && 1 <= j <= 999
    ensures p * 1000 + i < q * 1000 + j <==> p < q || (p == q && i < j)
    ensures p * 1000 + i == q * 1000 + j <==> p == q && i == j
  { }

  /** Versions collide exactly when two modules share priority and step number. */
  lemma CollisionIffShared(sources: seq<Source>)
    requires DistinctModules(sources)
    ensures DistinctVersions(Items(sources)) <==> !SharedNumber(sources)
  {
    ItemsMembers(sources);
    if SharedNumber(sources) {
      SharedCollides(sources);
    } else {
      ItemsDistinct(sources);
      UnsharedDiffer(sources);
    }
  }

  lemma SharedCollides(sources: seq<Source>)
    requires SharedNumber(sources)
    ensures !DistinctVersions(Items(sources))
  {
    ItemsMembers(sources);
    var items := Items(sources);
    var x, y :| Supplied(sources, x) && Supplied(sources, y) && x.src.moduleName != y.src.moduleName
                && x.src.priority == y.src.priority && x.step.localNum == y.step.localNum;
    assert x in items && y in items && x != y && x.Version() == y.Version();
    TwoPlaces(items, x, y);
  }

  lemma TwoPlaces(items: seq<Item>, x: Item, y: Item)
    requires x in items && y in items && x != y && x.Version() == y.Version()
    ensures !DistinctVersions(items)
  {
    var i :| 0 <= i < |items| && items[i] == x;
    var j :| 0 <= j < |items| && items[j] == y;
    assert i < j || j < i;
  }

  lemma UnsharedDiffer(sources: seq<Source>)
    requires DistinctModules(sources) && !SharedNumber(sources) && Distinct(Items(sources))
    ensures DistinctVersions(Items(sources))
  {
    ItemsMembers(sources);
    var items := Items(sources);
    forall i, j | 0 <= i < j < |items| ensures items[i].Version() != items[j].Version() {
      var x, y := items[i], items[j];
      assert x in items && y in items && Supplied(sources, x) && Supplied(sources, y);
      StepNumberKnown(x); StepNumberKnown(y);
      VersionDecodes(x.src.priority, x.step.localNum, y.src.priority, y.step.localNum);
      if x.src.moduleName == y.src.moduleName {
        SameModule(sources, x.src, y.src);
        SameStep(x, y);
      }
    }
  }

  lemma StepNumberKnown(x: Item)
    requires x.step in StepsIn(x.src.fs)
    ensures 1 <= x.step.localNum <= 999
  {
    StepsInFacts(x.src.fs);
  }

  lemma SameStep(x: Item, y: Item)
    requires x.src == y.src && x.step in StepsIn(x.src.fs) && y.step in StepsIn(x.src.fs)
    ensures x.step.localNum == y.step.localNum ==> x == y
  {
    StepsInFacts(x.src.fs);
  }

  lemma {:induction false} ItemsDistinct(sources: seq<Source>)
    requires DistinctModules(sources)
    ensures Distinct(Items(sources))
  {
    if sources != [] {
      var init, last := sources[..|sources| - 1], sources[|sources| - 1];
      assert sources == init + [last];
      ItemsDistinct(init);
      ItemsMembers(init);
      StepsInFacts(last.fs);
      var a, b := Items(init), StepItems(last, StepsIn(last.fs));
      forall i, j | 0 <= i < |a| && 0 <= j < |b| ensures a[i] != b[j] {
        assert a[i] in a;
        assert last !in init by { assert forall k :: 0 <= k < |init| ==> init[k] == sources[k]; }
      }
    }
  }

  // ---------------------------------------------------------------------------
  // File names.

  lemma VersionTextHasNoUnderscore(v: int)
    ensures '_' !in VersionText(v)
  {
    var n := if v >= 0 then v else -v;
    var text := Pad(if v >= 0 then 6 else 5, n);
    LastDigitsAreDigits(|text|, n);
  }

  lemma VersionTextInjective(v: int, w: int)
    requires VersionText(v) == VersionText(w)
    ensures v == w
  {
    if v >= 0 && w >= 0 {
      PadInjective(6, v, w);
    } else if v < 0 && w < 0 {
      assert VersionText(v)[1..] == Pad(5, -v) && VersionText(w)[1..] == Pad(5, -w);
      PadInjective(5, -v, -w);
    } else {
      PadStartsWithDigit(if v >= 0 then v else w);
    }
  }

  lemma PadStartsWithDigit(n: nat)
    ensures |Pad(6, n)| > 0 && IsDigit(Pad(6, n)[0])
  {
    LastDigitsAreDigits(|Pad(6, n)|, n);
  }

  lemma SameBeforeUnderscore(a: string, x: string, b: string, y: string)
    requires '_' !in a && '_' !in b && a + ("_" + x) == b + ("_" + y)
    ensures a == b
  {
    var l, r := a + ("_" + x), b + ("_" + y);
    assert l[|a|] == '_' && r[|b|] == '_';
    assert l[..|a|] == a && r[..|b|] == b;
  }

  ghost predicate NameOf(x: Item, name: string)
  {
    name == x.UpName() || name == x.DownName()
  }

  /** A file name determines the version it belongs to. */
  lemma NameGivesVersion(x: Item, y: Item, name: string)
    requires NameOf(x, name) && NameOf(y, name)
    ensures x.Version() == y.Version()
  {
    VersionTextHasNoUnderscore(x.Version());
    VersionTextHasNoUnderscore(y.Version());
    var p := x.src.moduleName + "_" + x.step.name + (if name == x.UpName() then ".up.sql" else ".down.sql");
    var q := y.src.moduleName + "_" + y.step.name + (if name == y.UpName() then ".up.sql" else ".down.sql");
    SameBeforeUnderscore(VersionText(x.Version()), p, VersionText(y.Version()), q);
    VersionTextInjective(x.Version(), y.Version());
  }

  /** The scripts of one step are in place. */
  ghost predicate Holds(files: map<string, string>, x: Item)
  {
    && x.UpName() in files && files[x.UpName()] == x.step.up
    && (x.step.down != "" ==> x.DownName() in files && files[x.DownName()] == x.step.down)
  }

  /** A down script is written only where the step has one. */
  ghost predicate Writes(x: Item, f: string)
  {
    f == x.UpName() || (f == x.DownName() && x.step.down != "")
  }

  lemma HoldsNew(files: map<string, string>, x: Item)
    ensures Holds(AddFiles(files, x), x)
  {
    assert |x.UpName()| != |x.DownName()|;
  }

  lemma HoldsOthers(files: map<string, string>, x: Item, last: Item)
    requires Holds(files, x) && x.Version() != last.Version()
    ensures Holds(AddFiles(files, last), x)
  {
    forall f | NameOf(x, f) ensures !NameOf(last, f) {
      if NameOf(last, f) { NameGivesVersion(x, last, f); }
    }
    assert NameOf(x, x.UpName()) && NameOf(x, x.DownName());
  }

  lemma AddedFiles(files: map<string, string>, last: Item)
    ensures forall f :: f in AddFiles(files, last) <==> f in files || Writes(last, f)
  { }

  /** Every file in the directory is the script of some step. */
  lemma {:induction false} FilesAreScripts(items: seq<Item>)
    ensures forall f :: f in Files(items) ==> exists x :: x in items && Writes(x, f)
  {
    if items != [] {
      var init, last := items[..|items| - 1], items[|items| - 1];
      FilesAreScripts(init);
      AddedFiles(Files(init), last);
      forall f | f in Files(items) ensures exists x :: x in items && Writes(x, f) {
        if !Writes(last, f) {
          var x :| x in init && Writes(x, f);
          assert x in items;
        }
      }
    }
  }

  /** Without a version collision the directory holds each step's scripts and nothing else. */
  lemma {:induction false} FilesHoldSteps(items: seq<Item>)
    requires DistinctVersions(items)
    ensures forall x :: x in items ==> Holds(Files(items), x)
    ensures forall f :: f in Files(items) ==> exists x :: x in items && Writes(x, f)
  {
    FilesAreScripts(items);
    StepsAreHeld(items);
  }

  lemma {:induction false} StepsAreHeld(items: seq<Item>)
    requires DistinctVersions(items)
    ensures forall x :: x in items ==> Holds(Files(items), x)
  {
    if items != [] {
      var init, last := items[..|items| - 1], items[|items| - 1];
      assert items == init + [last];
      AppendItem(init, last);
      StepsAreHeld(init);
      HoldsNew(Files(init), last);
      forall x | x in init ensures Holds(AddFiles(Files(init), last), x) {
        assert x.Version() in Versions(init);
        HoldsOthers(Files(init), x, last);
      }
    }
  }

  // ---------------------------------------------------------------------------
  // The directory as a migration driver reads it, in terms of what the modules supply.

  /** `d` is the number `v` with at least six characters, a minus sign included. */
  ghost predicate ShowsVersion(d: string, v: int)
  {
    if v >= 0 then ShowsNumber(d, 6, v) else d != "" && d[0] == '-' && ShowsNumber(d[1..], 5, -v)
  }

  lemma ShowsVersionIff(d: string, v: int)
    ensures ShowsVersion(d, v) <==> d == VersionText(v)
  {
    if v >= 0 {
      ShowsIffPad(d, 6, v);
    } else {
      assert d != "" ==> d == [d[0]] + d[1..];
      ShowsIffPad(if d == "" then d else d[1..], 5, -v);
    }
  }

  /** The file is named by priority and number of the step, its module, its description and `suffix`. */
  ghost predicate Named(f: string, x: Item, suffix: string)
  {
    exists d :: ShowsVersion(d, x.src.priority * 1000 + x.step.localNum)
                && f == d + ("_" + (x.src.moduleName + "_" + x.step.name + suffix))
  }

  lemma NamedIff(f: string, x: Item, suffix: string)
    ensures Named(f, x, suffix) <==> f == x.FileName(suffix)
  {
    var v := x.src.priority * 1000 + x.step.localNum;
    forall d ensures ShowsVersion(d, v) <==> d == VersionText(v) { ShowsVersionIff(d, v); }
  }

  /** The file is an up script with the step's up text or a down script with its down text. */
  ghost predicate ScriptFile(files: map<string, string>, f: string, x: Item)
  {
    f in files && ((Named(f, x, ".up.sql") && files[f] == x.step.up)
                   || (Named(f, x, ".down.sql") && x.step.down != "" && files[f] == x.step.down))
  }

  ghost predicate HasScript(files: map<string, string>, x: Item, suffix: string, text: string)
  {
    exists f :: f in files && Named(f, x, suffix) && files[f] == text
  }

  /** The steps' scripts are in the directory, each under its own name, and nothing else is. */
  ghost predicate Directory(items: seq<Item>, files: map<string, string>)
  {
    && (forall f :: f in files ==> exists x :: x in items && ScriptFile(files, f, x))
    && (forall x :: x in items ==> HasScript(files, x, ".up.sql", x.step.up))
    && (forall x :: x in items && x.step.down != "" ==> HasScript(files, x, ".down.sql", x.step.down))
  }

  lemma WrittenScript(files: map<string, string>, f: string, x: Item)
    requires Holds(files, x) && Writes(x, f)
    ensures ScriptFile(files, f, x)
  {
    NamedIff(f, x, ".up.sql");
    NamedIff(f, x, ".down.sql");
  }

  lemma HeldScripts(files: map<string, string>, x: Item)
    requires Holds(files, x)
    ensures HasScript(files, x, ".up.sql", x.step.up)
    ensures x.step.down != "" ==> HasScript(files, x, ".down.sql", x.step.down)
  {
    NamedIff(x.UpName(), x, ".up.sql");
    NamedIff(x.DownName(), x, ".down.sql");
  }

  /** Without a version collision the written files are that directory. */
  lemma FilesAreDirectory(items: seq<Item>)
    requires DistinctVersions(items)
    ensures Directory(items, Files(items))
  {
    var files := Files(items);
    FilesHoldSteps(items);
    forall f | f in files ensures exists x :: x in items && ScriptFile(files, f, x) {
      var x :| x in items && Writes(x, f);
      WrittenScript(files, f, x);
    }
    forall x | x in items
      ensures HasScript(files, x, ".up.sql", x.step.up)
      ensures x.step.down != "" ==> HasScript(files, x, ".down.sql", x.step.down)
    {
      HeldScripts(files, x);
    }
  }

  // ---------------------------------------------------------------------------
  // The order of file names.

  /** How many digits a number shows when padded to `base`. */
  function Width(base: nat, v: nat): nat
  {
    |Pad(base, v)|
  }

  /** The smaller of two numbers comes first exactly when both show equally many digits, or when it is
      smaller than the leading digits of the larger one. */
  ghost predicate DigitsInOrder(base: nat, v: nat, w: nat)
  {
    Width(base, v) == Width(base, w) || (Width(base, v) < Width(base, w) && v < DropDigits(w, Width(base, w) - Width(base, v)))
  }

  /** When the names of two versions, the smaller given first, sort as the versions do. The digits of
      negative versions count down. */
  ghost predicate NamedInOrder(v: int, w: int)
  {
    if v >= 0 then w >= 0 && DigitsInOrder(6, v, w)
    else w >= 0 || !DigitsInOrder(5, -w, -v)
  }

  /** Two texts of digits with something that sorts after every digit behind the shorter one. */
  lemma NumbersThenText(base: nat, v: nat, w: nat, x: string, y: string)
    requires v < w
    ensures Less(Pad(base, v) + (['_'] + x), Pad(base, w) + (['_'] + y)) <==> DigitsInOrder(base, v, w)
  {
    MoreDigits(v, w);
    var a, k := Width(base, v), Width(base, w) - Width(base, v);
    if k == 0 {
      DigitsOrdered(a, v, w, ['_'] + x, ['_'] + y);
    } else {
      var lead := DropDigits(w, k);
      DigitsSplit(a, k, w);
      DroppedDigits(w, k);
      LeadAgainst(a, k, v, lead, w, x, y);
    }
  }

  lemma LeadAgainst(a: nat, k: nat, v: nat, lead: nat, w: nat, x: string, y: string)
    requires k >= 1 && a >= NumDigits(v) && a >= NumDigits(lead)
    ensures Less(LastDigits(a, v) + (['_'] + x), LastDigits(a, lead) + LastDigits(k, w) + (['_'] + y)) <==> v < lead
  {
    var f, g := ['_'] + x, LastDigits(k, w) + (['_'] + y);
    assert LastDigits(a, lead) + LastDigits(k, w) + (['_'] + y) == LastDigits(a, lead) + g;
    if v < lead {
      DigitsOrdered(a, v, lead, f, g);
    } else {
      if lead < v {
        DigitsOrdered(a, lead, v, g, f);
      } else {
        DigitBeforeUnderscore(k, w, ['_'] + y, x);
        LessAfterPrefix(LastDigits(a, v), g, f);
      }
      LessTotal(LastDigits(a, v) + f, LastDigits(a, lead) + g);
    }
  }

  lemma DigitBeforeUnderscore(k: nat, w: nat, y: string, x: string)
    requires k >= 1
    ensures Less(LastDigits(k, w) + y, ['_'] + x)
  {
    LastDigitsAreDigits(k, w);
    assert (LastDigits(k, w) + y)[0] == LastDigits(k, w)[0];
    assert IsDigit(LastDigits(k, w)[0]);
  }

  /** The sign sorts before every digit, and after it the larger number has the smaller version. */
  lemma SignedThenText(v: int, w: int, x: string, y: string)
    requires v < w
    ensures Less(VersionText(v) + (['_'] + x), VersionText(w) + (['_'] + y)) <==> NamedInOrder(v, w)
  {
    if v >= 0 {
      NumbersThenText(6, v, w, x, y);
    } else if w >= 0 {
      PadStartsWithDigit(w);
      assert (VersionText(v) + (['_'] + x))[0] == '-' && (VersionText(w) + (['_'] + y))[0] == Pad(6, w)[0];
    } else {
      NegativesThenText(v, w, x, y);
    }
  }

  lemma NegativesThenText(v: int, w: int, x: string, y: string)
    requires v < w < 0
    ensures Less(VersionText(v) + (['_'] + x), VersionText(w) + (['_'] + y)) <==> !DigitsInOrder(5, -w, -v)
  {
    var f, g := Pad(5, -v) + (['_'] + x), Pad(5, -w) + (['_'] + y);
    NumbersThenText(5, -w, -v, y, x);
    assert VersionText(v) + (['_'] + x) == ['-'] + f && VersionText(w) + (['_'] + y) == ['-'] + g;
    DifferentNumbers(-v, -w, x, y);
    AfterSign(f, g);
  }

  lemma AfterSign(f: string, g: string)
    requires f != g
    ensures Less(['-'] + f, ['-'] + g) <==> !Less(g, f)
  {
    LessTotal(f, g);
    LessTotal(['-'] + f, ['-'] + g);
    if Less(f, g) { LessAfterPrefix(['-'], f, g); } else { LessAfterPrefix(['-'], g, f); }
  }

  lemma DifferentNumbers(a: nat, b: nat, x: string, y: string)
    requires a != b
    ensures Pad(5, a) + (['_'] + x) != Pad(5, b) + (['_'] + y)
  {
    LastDigitsAreDigits(|Pad(5, a)|, a);
    LastDigitsAreDigits(|Pad(5, b)|, b);
    if Pad(5, a) + (['_'] + x) == Pad(5, b) + (['_'] + y) {
      assert ['_'] == "_";
      SameBeforeUnderscore(Pad(5, a), x, Pad(5, b), y);
      PadInjective(5, a, b);
    }
  }

  lemma NameShape(x: Item, f: string) returns (rest: string)
    requires NameOf(x, f)
    ensures f == VersionText(x.Version()) + (['_'] + rest)
  {
    rest := x.src.moduleName + "_" + x.step.name + if f == x.UpName() then ".up.sql" else ".down.sql";
    assert "_" == ['_'];
  }

  /** For every two items: exactly when their names sort as their versions do. */
  lemma NameOrderIff(x: Item, y: Item, f: string, g: string)
    requires NameOf(x, f) && NameOf(y, g) && x.Version() < y.Version()
    ensures Less(f, g) <==> NamedInOrder(x.Version(), y.Version())
  {
    var p := NameShape(x, f);
    var q := NameShape(y, g);
    SignedThenText(x.Version(), y.Version(), p, q);
  }

  /** For versions 0 to 999999 the order of file names is the order of versions. */
  lemma NamesInVersionOrder(x: Item, y: Item, f: string, g: string)
    requires NameOf(x, f) && NameOf(y, g)
    requires 0 <= x.Version() < y.Version() <= 999_999
    ensures Less(f, g)
  {
    SixDigitWidth(x.Version());
    SixDigitWidth(y.Version());
    NameOrderIff(x, y, f, g);
  }

  // ---------------------------------------------------------------------------
  // Which priorities keep names in order.

  /** A script of a module with a priority from `lo` to `top`. */
  ghost predicate Listed(lo: int, top: int, x: Item, f: string)
  {
    lo <= x.src.priority <= top && x.step in StepsIn(x.src.fs) && Writes(x, f)
  }

  /** Every two such scripts are named in the order of their versions. */
  ghost predicate OrderedBetween(lo: int, top: int)
  {
    forall x, y, f, g :: Listed(lo, top, x, f) && Listed(lo, top, y, g) && x.Version() < y.Version() ==> Less(f, g)
  }

  /** No negative priority, and either none above 999 or all with equally many digits. */
  predicate SafeRange(lo: int, top: int)
  {
    lo > top || (0 <= lo && (top <= 999 || NumDigits(lo) == NumDigits(top)))
  }

  /** Exactly the ranges of priorities for which names sort as versions do. */
  lemma OrderedBetweenIff(lo: int, top: int)
    ensures OrderedBetween(lo, top) <==> SafeRange(lo, top)
  {
    if SafeRange(lo, top) {
      SafeIsOrdered(lo, top);
    } else {
      var x, y := UnsafeMisordered(lo, top);
      NotOrdered(lo, top, x, y);
    }
  }

  lemma UnsafeMisordered(lo: int, top: int) returns (x: Item, y: Item)
    requires !SafeRange(lo, top)
    ensures Misordered(lo, top, x, y)
  {
    if lo < 0 { x, y := NegativeMisordered(lo, top); } else { x, y := BoundaryMisordered(lo, top); }
  }

  lemma NotOrdered(lo: int, top: int, x: Item, y: Item)
    requires Misordered(lo, top, x, y)
    ensures !OrderedBetween(lo, top)
  {
    ListedUp(lo, top, x);
    ListedUp(lo, top, y);
  }

  lemma SafeIsOrdered(lo: int, top: int)
    requires SafeRange(lo, top)
    ensures OrderedBetween(lo, top)
  {
    forall x, y, f, g | Listed(lo, top, x, f) && Listed(lo, top, y, g) && x.Version() < y.Version() ensures Less(f, g) {
      SafePair(lo, top, x, y);
      NameOrderIff(x, y, f, g);
    }
  }

  lemma SafePair(lo: int, top: int, x: Item, y: Item)
    requires SafeRange(lo, top) && lo <= x.src.priority <= top && lo <= y.src.priority <= top
    requires x.step in StepsIn(x.src.fs) && y.step in StepsIn(y.src.fs) && x.Version() < y.Version()
    ensures NamedInOrder(x.Version(), y.Version())
  {
    StepNumberKnown(x);
    StepNumberKnown(y);
    SafeWidth(lo, top, x.src.priority, x.step.localNum, y.src.priority, y.step.localNum);
  }

  lemma SafeWidth(lo: int, top: int, p: int, m: int, q: int, n: int)
    requires SafeRange(lo, top) && lo <= p <= top && lo <= q <= top && 1 <= m <= 999 && 1 <= n <= 999
    ensures NamedInOrder(p * 1000 + m, q * 1000 + n)
  {
    if top <= 999 {
      SixDigitWidth(p * 1000 + m);
      SixDigitWidth(q * 1000 + n);
    } else {
      SameDigits(lo, top, p, m);
      SameDigits(lo, top, q, n);
    }
  }

  lemma SixDigitWidth(v: nat)
    requires v <= 999_999
    ensures Width(6, v) == 6
  {
    DigitsBound(v, 6);
    assert Pow10(6) == 1_000_000;
  }

  /** Between two priorities with equally many digits all versions have equally many. */
  lemma SameDigits(lo: nat, top: nat, p: nat, n: nat)
    requires lo <= p <= top && top >= 1000 && NumDigits(lo) == NumDigits(top) && n <= 999
    ensures NumDigits(p * 1000 + n) == NumDigits(top) + 3 >= 7
  {
    MoreDigits(lo, p);
    MoreDigits(p, top);
    FourDigits(top);
    VersionDigits(p, n);
  }

  lemma FourDigits(n: nat)
    requires n >= 1000
    ensures NumDigits(n) >= 4
  {
    MoreDigits(1000, n);
    assert NumDigits(1000) == 4;
  }

  lemma VersionDigits(p: nat, n: nat)
    requires p >= 1 && n <= 999
    ensures NumDigits(p * 1000 + n) == NumDigits(p) + 3
  {
    var v := p * 1000 + n;
    assert v / 10 == p * 100 + n / 10;
    assert v / 10 / 10 == p * 10 + n / 10 / 10;
    assert v / 10 / 10 / 10 == p;
    assert NumDigits(v / 10 / 10) == NumDigits(p) + 1;
    assert NumDigits(v / 10) == NumDigits(p) + 2;
  }

  /** The script of a one-script module. */
  lemma OneListed(moduleName: string, priority: int, num: nat) returns (x: Item)
    requires 1 <= num <= 999
    ensures x.src.priority == priority && x.step.localNum == num && StepsIn(x.src.fs) == [x.step]
  {
    x := Item(Source(moduleName, priority, [], OneScript(num, "s", "x")), Step(num, "s", "x", ""));
    OneScriptSteps(num, "s", "x");
  }

  lemma ListedUp(lo: int, top: int, x: Item)
    requires lo <= x.src.priority <= top && StepsIn(x.src.fs) == [x.step]
    ensures Listed(lo, top, x, x.UpName())
  { }

  /** The only scripts of two modules in the range, with ascending versions and descending names. */
  ghost predicate Misordered(lo: int, top: int, x: Item, y: Item)
  {
    && StepsIn(x.src.fs) == [x.step] && StepsIn(y.src.fs) == [y.step]
    && lo <= x.src.priority <= top && lo <= y.src.priority <= top
    && x.Version() < y.Version() && !Less(x.UpName(), y.UpName())
  }

  lemma MisorderedPair(lo: int, top: int, p: int, m: nat, q: int, n: nat) returns (x: Item, y: Item)
    requires lo <= p <= top && lo <= q <= top && 1 <= m <= 999 && 1 <= n <= 999
    requires p * 1000 + m < q * 1000 + n && !NamedInOrder(p * 1000 + m, q * 1000 + n)
    ensures x.src.priority == p && x.step.localNum == m && y.src.priority == q && y.step.localNum == n
    ensures Misordered(lo, top, x, y)
  {
    x := OneListed("a", p, m);
    y := OneListed("b", q, n);
    OutOfOrder(x, y);
  }

  lemma OutOfOrder(x: Item, y: Item)
    requires x.Version() < y.Version() && !NamedInOrder(x.Version(), y.Version())
    ensures !Less(x.UpName(), y.UpName())
  {
    NameOrderIff(x, y, x.UpName(), y.UpName());
  }

  lemma BoundaryBetween(lo: nat, top: nat)
    requires lo <= top && top >= 1000 && NumDigits(lo) != NumDigits(top)
    ensures var d := NumDigits(top) - 1; d >= 3 && lo < Pow10(d) <= top
  {
    var d := NumDigits(top) - 1;
    FourDigits(top);
    MoreDigits(lo, top);
    DigitsBound(lo, d);
    DigitsBound(top, d);
  }

  /** The first priority with as many digits as `top`: the last script before it and its first one. */
  lemma BoundaryMisordered(lo: int, top: int) returns (x: Item, y: Item)
    requires 0 <= lo <= top && top >= 1000 && NumDigits(lo) != NumDigits(top)
    ensures y.src.priority == Pow10(NumDigits(top) - 1) && y.step.localNum == 1
    ensures x.src.priority == y.src.priority - 1 && x.step.localNum == 999
    ensures Misordered(lo, top, x, y)
  {
    var p := Boundary(lo, top);
    x, y := MisorderedPair(lo, top, p - 1, 999, p, 1);
  }

  lemma Boundary(lo: nat, top: nat) returns (p: nat)
    requires lo <= top && top >= 1000 && NumDigits(lo) != NumDigits(top)
    ensures lo < p <= top && p == Pow10(NumDigits(top) - 1) && !NamedInOrder((p - 1) * 1000 + 999, p * 1000 + 1)
  {
    var d := NumDigits(top) - 1;
    BoundaryBetween(lo, top);
    BoundaryOutOfOrder(d);
    p := Pow10(d);
  }

  lemma BoundaryOutOfOrder(d: nat)
    requires d >= 3
    ensures !NamedInOrder((Pow10(d) - 1) * 1000 + 999, Pow10(d) * 1000 + 1)
  {
    BoundaryDigits(d);
    assert (Pow10(d) - 1) * 1000 + 999 == Pow10(d) * 1000 - 1;
  }

  lemma BoundaryDigits(d: nat)
    requires d >= 3
    ensures var v := Pow10(d) * 1000;
            NumDigits(v - 1) == d + 3 && NumDigits(v + 1) == d + 4 && !DigitsInOrder(6, v - 1, v + 1)
  {
    var v := Pow10(d) * 1000;
    assert Pow10(d + 1) == 10 * Pow10(d) && Pow10(d + 2) == 100 * Pow10(d) && Pow10(d + 3) == v && Pow10(d + 4) == 10 * v;
    DigitsBound(v - 1, d + 2);
    DigitsBound(v - 1, d + 3);
    DigitsBound(v + 1, d + 3);
    DigitsBound(v + 1, d + 4);
    assert DropDigits(v + 1, 1) == (v + 1) / 10;
  }

  /** At a negative priority: scripts 1 and 2. */
  lemma NegativeMisordered(lo: int, top: int) returns (x: Item, y: Item)
    requires lo < 0 && lo <= top
    ensures x.src.priority == y.src.priority == lo && x.step.localNum == 1 && y.step.localNum == 2
    ensures Misordered(lo, top, x, y)
  {
    NegativeDigits(lo);
    x, y := MisorderedPair(lo, top, lo, 1, lo, 2);
  }

  lemma NegativeDigits(lo: int)
    requires lo < 0
    ensures !NamedInOrder(lo * 1000 + 1, lo * 1000 + 2)
  {
    NeighbourDigits(-(lo * 1000 + 1));
  }

  lemma NeighbourDigits(b: nat)
    requires b >= 10 && b % 10 != 0
    ensures NumDigits(b - 1) == NumDigits(b)
  {
    assert (b - 1) / 10 == b / 10;
  }

  // ---------------------------------------------------------------------------
  // Dependencies run first.

  /** Every module has a strictly larger priority than each of its dependencies. */
  ghost predicate PrioritiesAscend(ms: Modules)
  {
    forall n, d :: Edge(Deps(ms), n, d) && d in ms ==> ms[d].priority < ms[n].priority
  }

  lemma {:induction false} PathLowersPriority(ms: Modules, p: seq<string>, n: string, d: string)
    requires PrioritiesAscend(ms) && Closed(Deps(ms)) && IsPath(Deps(ms), p, n, d)
    ensures n in ms && d in ms && ms[d].priority < ms[n].priority
  {
    assert Edge(Deps(ms), p[0], p[1]);
    if |p| > 2 {
      assert IsWalk(Deps(ms), p[1..]) by {
        forall m | 0 <= m < |p[1..]| - 1 ensures Edge(Deps(ms), p[1..][m], p[1..][m + 1]) { assert Edge(Deps(ms), p[m + 1], p[m + 2]); }
      }
      PathLowersPriority(ms, p[1..], p[1], d);
    }
  }

  /** When priorities ascend along dependencies, every step of a direct or transitive dependency has
      a smaller version than any step of its dependent. */
  lemma DependenciesVersionedFirst(ms: Modules, n: string, d: string, x: Item, y: Item)
    requires PrioritiesAscend(ms) && Closed(Deps(ms)) && Reaches(Deps(ms), n, d)
    requires d in ms && n in ms && x.src == ms[d] && y.src == ms[n]
    requires x.step in StepsIn(x.src.fs) && y.step in StepsIn(y.src.fs)
    ensures x.Version() < y.Version()
  {
    var p :| IsPath(Deps(ms), p, n, d);
    PathLowersPriority(ms, p, n, d);
    StepNumberKnown(x); StepNumberKnown(y);
    VersionDecodes(x.src.priority, x.step.localNum, y.src.priority, y.step.localNum);
  }

  ghost predicate AllBefore(d: Source, n: Source)
  {
    forall s, t :: s in StepsIn(d.fs) && t in StepsIn(n.fs) ==> Item(d, s).Version() < Item(n, t).Version()
  }

  /** Exactly when one module's steps all have smaller versions than another's: the topological
      order plays no part, only priorities and step numbers do. */
  lemma RunsBeforeIff(d: Source, n: Source)
    ensures AllBefore(d, n) <==>
            var a, b := StepsIn(d.fs), StepsIn(n.fs);
            a == [] || b == [] || d.priority < n.priority || (d.priority == n.priority && a[|a| - 1].localNum < b[0].localNum)
  {
    StepsInFacts(d.fs);
    StepsInFacts(n.fs);
    StepsBeforeIff(d, n, StepsIn(d.fs), StepsIn(n.fs));
  }

  lemma StepsBeforeIff(d: Source, n: Source, a: seq<Step>, b: seq<Step>)
    requires ValidNumbers(a) && ValidNumbers(b)
    ensures (forall s, t :: s in a && t in b ==> Item(d, s).Version() < Item(n, t).Version()) <==>
            a == [] || b == [] || d.priority < n.priority || (d.priority == n.priority && a[|a| - 1].localNum < b[0].localNum)
  {
    forall s, t | s in a && t in b ensures Item(d, s).Version() < Item(n, t).Version() <==>
                                           d.priority < n.priority || (d.priority == n.priority && s.localNum < t.localNum) {
      VersionDecodes(d.priority, s.localNum, n.priority, t.localNum);
    }
    if a != [] && b != [] { assert a[|a| - 1] in a && b[0] in b; }
  }

  /** A list that can be built although a module's script has a smaller version than its dependency's. */
  lemma DependencyBuiltLater()
    ensures exists d, n :: var sources := [n, d];
              && Buildable(sources) && Edge(Deps(ByModule(sources)), n.moduleName, d.moduleName)
              && StepsIn(d.fs) != [] && StepsIn(n.fs) != [] && AllBefore(n, d)
  {
    var fs := OneScript(1, "s", "x");
    var d, n := Source("a", 2, [], fs), Source("b", 1, ["a"], fs);
    OneScriptSteps(1, "s", "x");
    TwoModules(d, n);
    RunsBeforeIff(n, d);
    assert Buildable([n, d]);
  }

  lemma TwoModules(d: Source, n: Source)
    requires d.dependsOn == [] && n.dependsOn == [d.moduleName] && d.moduleName != n.moduleName && d.priority != n.priority
    requires Readable(d.fs) && Readable(n.fs)
    ensures Buildable([n, d]) && Edge(Deps(ByModule([n, d])), n.moduleName, d.moduleName)
  {
    var sources := [n, d];
    assert sources[..1] == [n] && [n][..0] == [];
    assert ByModule([n]) == map[n.moduleName := n];
    var ms := ByModule(sources);
    assert ms == map[n.moduleName := n, d.moduleName := d];
    var order := [d.moduleName, n.moduleName];
    assert order[..1] == [d.moduleName] && order[..0] == [];
    assert DepsFirst(Deps(ms), order) by {
      assert Elems(order[..1]) == {d.moduleName};
    }
    CompleteOrderAcyclic(Deps(ms), order);
  }

  // ---------------------------------------------------------------------------
  // BuildFSFrom.

  ghost predicate Clash(sources: seq<Source>)
  {
    exists x: Item, y: Item ::
      && Registered(sources, x.src) && Registered(sources, y.src) && x.src.moduleName != y.src.moduleName
      && x.step in StepsIn(x.src.fs) && y.step in StepsIn(y.src.fs)
      && x.src.priority == y.src.priority && x.step.localNum == y.step.localNum
  }

  /** Nothing keeps BuildFSFrom from building. */
  ghost predicate Buildable(sources: seq<Source>)
  {
    && AllPresent(sources) && Acyclic(Deps(ByModule(sources)))
    && (forall s :: Registered(sources, s) ==> Readable(s.fs))
    && !Clash(sources)
  }

  /** Builds exactly when every dependency is registered, none is circular, every directory can be
      read and no two modules share priority and step number; each failure is genuine. The directory
      is that of the ordered sources' steps. */
  method BuildFSFrom(sources: seq<Source>) returns (r: BuildResult, ghost order: seq<string>)
    ensures r.Unordered? <==> !AllPresent(sources) || !Acyclic(Deps(ByModule(sources)))
    ensures r.Built? <==> Buildable(sources)
    ensures r.Collision? ==> Clash(sources)
    ensures r.NoSteps? ==> exists s :: Registered(sources, s) && s.moduleName == r.moduleName && !Readable(s.fs)
    ensures r.Built? ==>
              var sorted := Picked(ByModule(sources), order);
              && DepsFirst(Deps(ByModule(sources)), order) && Elems(order) == ByModule(sources).Keys
              && (forall s :: s in sorted <==> Registered(sources, s))
              && r.files == Files(Items(sorted)) && DistinctVersions(Items(sorted)) && Directory(Items(sorted), r.files)
              && (forall x :: x in Items(sorted) <==> Registered(sources, x.src) && x.step in StepsIn(x.src.fs))
  {
    var o;
    o, order := TopoSort(sources);
    if !o.Ordered? { return Unordered(o), order; }
    OrderedModules(sources, order);
    CollisionIffShared(o.sources);
    ClashIffShared(sources, o.sources);
    r := Assemble(o.sources);
    if r.Built? {
      ItemsMembers(o.sources);
      FilesAreDirectory(Items(o.sources));
    }
  }

  lemma OrderedModules(sources: seq<Source>, order: seq<string>)
    requires Distinct(order) && Elems(order) == ByModule(sources).Keys
    ensures DistinctModules(Picked(ByModule(sources), order))
    ensures forall s :: s in Picked(ByModule(sources), order) <==> Registered(sources, s)
  {
    var ms := ByModule(sources);
    ByModuleFacts(sources);
    PickedFacts(ms, order);
    var l := Picked(ms, order);
    forall s | Registered(sources, s) ensures s in l {
      RegisteredIff(sources, s);
      assert s.moduleName in Elems(order);
      var i :| 0 <= i < |order| && order[i] == s.moduleName;
      assert l[i] == s;
    }
    forall s | s in l ensures Registered(sources, s) {
      var i :| 0 <= i < |l| && l[i] == s;
      assert order[i] in ms && s == ms[order[i]];
      RegisteredIff(sources, s);
    }
  }

  lemma ClashIffShared(sources: seq<Source>, sorted: seq<Source>)
    requires forall s :: s in sorted <==> Registered(sources, s)
    ensures Clash(sources) <==> SharedNumber(sorted)
  {
    forall x: Item ensures Supplied(sorted, x) <==> Registered(sources, x.src) && x.step in StepsIn(x.src.fs) { }
  }

  /** The directory handle, read in pieces. */
  class MemDir {
    const files: map<string, string>
    var entries: seq<string>
    var loaded: bool
    var pos: nat
    /** The file names in ascending order. */
    ghost const listing: seq<string>

    ghost predicate Valid()
      reads this
    {
      && StrictlySorted(listing) && Elems(listing) == files.Keys
      && (loaded ==> entries == listing && pos <= |entries|)
      && (!loaded ==> pos == 0)
    }

    constructor (files: map<string, string>)
      ensures Valid() && pos == 0 && this.files == files
    {
      this.files, entries, loaded, pos := files, [], false, 0;
      listing := SortedSet(files.Keys);
    }

    /** The first call collects and sorts the names (migration.go:188-195). */
    method Load()
      requires Valid() && !loaded
      modifies this
      ensures Valid() && loaded && pos == old(pos)
    {
      entries := SortedKeys(files.Keys);
      StrictlySortedUnique(entries, listing);
      loaded := true;
    }

    /** Successive calls return consecutive pieces of the sorted listing; `eof` is io.EOF. */
    method ReadDir(n: int) returns (eof: bool, result: seq<string>)
      requires Valid()
      modifies this
      ensures Valid() && old(pos) <= pos <= |listing| && result == listing[old(pos)..pos]
      ensures eof <==> n > 0 && old(pos) == |listing|
      ensures n <= 0 ==> pos == |listing|
      ensures n > 0 ==> |result| <= n && (|result| < n ==> pos == |listing|)
    {
      if !loaded { Load(); }
      if n <= 0 {
        eof, result := false, entries[pos..];
        pos := |entries|;
        return;
      }
      if pos >= |entries| { return true, []; }
      var end := if pos + n > |entries| then |entries| else pos + n;
      eof, result := false, entries[pos..end];
      pos := end;
    }
  }

  // ---------------------------------------------------------------------------
  // What the migration driver lists.

  /** Positions in the listing follow versions. */
  ghost predicate FollowsVersions(items: seq<Item>, listing: seq<string>)
  {
    forall i, j, x, y :: 0 <= i < j < |listing| && x in items && y in items && Writes(x, listing[i]) && Writes(y, listing[j]) ==>
      x.Version() <= y.Version()
  }

  /** The step `y` belongs to a module that depends, directly or transitively, on the one of `x`. */
  ghost predicate Needs(ms: Modules, y: Item, x: Item)
  {
    Reaches(Deps(ms), y.src.moduleName, x.src.moduleName)
  }

  /** Every script of a dependency stands before every script of its dependent. */
  ghost predicate DependenciesFirst(ms: Modules, items: seq<Item>, listing: seq<string>)
  {
    forall i, j, x, y :: 0 <= i < |listing| && 0 <= j < |listing| && x in items && y in items ==>
      (Writes(x, listing[i]) && Writes(y, listing[j]) && Needs(ms, y, x) ==> i < j)
  }

  /** All priorities lie in a range that keeps names in order, such as 0 to 999. */
  ghost predicate SafePriorities(sources: seq<Source>)
  {
    exists lo, top :: SafeRange(lo, top) && forall s :: s in sources ==> lo <= s.priority <= top
  }

  lemma SafeNames(sources: seq<Source>, x: Item, y: Item, f: string, g: string)
    requires SafePriorities(sources) && x in Items(sources) && y in Items(sources)
    requires Writes(x, f) && Writes(y, g) && x.Version() < y.Version()
    ensures Less(f, g)
  {
    var lo, top :| SafeRange(lo, top) && forall s :: s in sources ==> lo <= s.priority <= top;
    ItemsMembers(sources);
    SafePair(lo, top, x, y);
    NameOrderIff(x, y, f, g);
  }

  lemma ListingFollowsVersions(sources: seq<Source>, listing: seq<string>)
    requires SafePriorities(sources) && StrictlySorted(listing)
    ensures FollowsVersions(Items(sources), listing)
  {
    var items := Items(sources);
    forall i, j, x, y | 0 <= i < j < |listing| && x in items && y in items && Writes(x, listing[i]) && Writes(y, listing[j])
      ensures x.Version() <= y.Version()
    {
      if y.Version() < x.Version() {
        SafeNames(sources, y, x, listing[j], listing[i]);
        LessTotal(listing[i], listing[j]);
      }
    }
  }

  lemma NeededFirst(sources: seq<Source>, sorted: seq<Source>, x: Item, y: Item)
    requires PrioritiesAscend(ByModule(sources)) && Closed(Deps(ByModule(sources)))
    requires forall s :: s in sorted <==> Registered(sources, s)
    requires x in Items(sorted) && y in Items(sorted) && Needs(ByModule(sources), y, x)
    ensures x.Version() < y.Version()
  {
    ItemsMembers(sorted);
    RegisteredIff(sources, x.src);
    RegisteredIff(sources, y.src);
    DependenciesVersionedFirst(ByModule(sources), y.src.moduleName, x.src.moduleName, x, y);
  }

  lemma ListingDependenciesFirst(sources: seq<Source>, sorted: seq<Source>, listing: seq<string>)
    requires PrioritiesAscend(ByModule(sources)) && Closed(Deps(ByModule(sources)))
    requires forall s :: s in sorted <==> Registered(sources, s)
    requires SafePriorities(sorted) && StrictlySorted(listing)
    ensures DependenciesFirst(ByModule(sources), Items(sorted), listing)
  {
    var ms, items := ByModule(sources), Items(sorted);
    forall i, j, x, y | 0 <= i < |listing| && 0 <= j < |listing| && x in items && y in items
      ensures Writes(x, listing[i]) && Writes(y, listing[j]) && Needs(ms, y, x) ==> i < j
    {
      if Writes(x, listing[i]) && Writes(y, listing[j]) && Needs(ms, y, x) {
        NeededFirst(sources, sorted, x, y);
        SafeNames(sorted, x, y, listing[i], listing[j]);
        LessTotal(listing[i], listing[j]);
      }
    }
  }

  /** Building the directory, opening it and reading it whole (migration.go:110-160 and 187-203). With
      priorities in a safe range the scripts come in version order, and if they ascend along
      dependencies every module's scripts come after those of everything it depends on. */
  method ListScripts(sources: seq<Source>) returns (r: BuildResult, listing: seq<string>, ghost order: seq<string>)
    ensures r.Built? <==> Buildable(sources)
    ensures r.Built? ==>
              var ms := ByModule(sources);
              var sorted := Picked(ms, order);
              && StrictlySorted(listing) && Elems(listing) == r.files.Keys && Directory(Items(sorted), r.files)
              && (SafePriorities(sorted) ==> FollowsVersions(Items(sorted), listing))
              && (SafePriorities(sorted) && PrioritiesAscend(ms) ==> DependenciesFirst(ms, Items(sorted), listing))
  {
    listing := [];
    r, order := BuildFSFrom(sources);
    if r.Built? {
      var dir := new MemDir(r.files);
      var eof;
      eof, listing := dir.ReadDir(-1);
      assert listing == dir.listing[0..|dir.listing|] == dir.listing;
      ghost var sorted := Picked(ByModule(sources), order);
      CompleteOrderAcyclic(Deps(ByModule(sources)), order);
      if SafePriorities(sorted) {
        ListingFollowsVersions(sorted, listing);
        if PrioritiesAscend(ByModule(sources)) { ListingDependenciesFirst(sources, sorted, listing); }
      }
    }
  }
}
