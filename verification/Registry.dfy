/**
 The registry of function identifiers. The generator reads the registry file back with the
 prefix put in front of every name, keeps the identifier of every function it already knows,
 draws new identifiers from a high-water mark that is stored in the file, and writes the file
 with the prefix stripped again.
 */
module Registry {
  import opened Prelude
  import opened Numerals
  import opened StableSort
  import opened Assignment
  import Enums

  const PREFIX := "$X_FUNCTION_"
  const VALUE_LIMIT := 0x7FFF_FFFF

  datatype Etor = Etor(name: string, desc: string, value: string, guard: Option<string>)

  /** The function enum, both in the file (bare names) and in memory (prefixed names). */
  datatype FunctionType = FunctionType(etors: seq<Etor>, maxId: Option<string>)

  /** `key` is the upper-cased snake-case form of `fname`. */
  datatype Function = Function(fname: string, key: string, guard: Option<string>)

  /** `NoMaximum` is the failing index of the refresh of the meta-data. */
  datatype Error = ValueError | ValueTooLarge | EmptyEnum | NoMaximum

  predicate Numeric(e: Etor) {
    ParseInt(e.value, 10).Some?
  }

  predicate AllNumeric(etors: seq<Etor>) {
    forall e :: e in etors ==> Numeric(e)
  }

  function Id(e: Etor): int {
    if Numeric(e) then ParseInt(e.value, 10).value else 0
  }

  function Ids(etors: seq<Etor>): (ids: seq<int>)
    ensures |ids| == |etors|
  {
    seq(|etors|, i requires 0 <= i < |etors| => Id(etors[i]))
  }

  // ---------------------------------------------------------------- the passes as functions

  function MaxEnum(etors: seq<Etor>): (m: int)
    requires etors != []
    ensures forall e :: e in etors ==> Id(e) <= m
    ensures exists e :: e in etors && Id(e) == m
  {
    if |etors| == 1 then Id(etors[0])
    else
      var rest := MaxEnum(etors[1..]);
      if Id(etors[0]) < rest then rest else Id(etors[0])
  }

  /** A mark that is not a number counts as none. */
  function StoredMark(file: FunctionType): Option<int> {
    if file.maxId.Some? then ParseInt(file.maxId.value, 10) else None
  }

  function PersistentMax(t: FunctionType): (m: int)
    requires t.etors != []
    ensures forall e :: e in t.etors ==> Id(e) <= m
  {
    var largest := MaxEnum(t.etors);
    match StoredMark(t)
    case None => largest
    case Some(stored) => if largest < stored then stored else largest
  }

  /** The mark is the larger one of the largest identifier and the stored mark, if there is one. */
  lemma {:induction false} MarkIsLargest(t: FunctionType)
    requires t.etors != []
    ensures forall e :: e in t.etors ==> Id(e) <= PersistentMax(t)
    ensures StoredMark(t).Some? ==> StoredMark(t).value <= PersistentMax(t)
    ensures StoredMark(t) == Some(PersistentMax(t)) || exists e :: e in t.etors && Id(e) == PersistentMax(t)
  {
  }

  /** The dictionary of known values: of several entries with one name the last one counts. */
  function Known(etors: seq<Etor>): map<string, string> {
    if etors == [] then map[]
    else
      var last := etors[|etors| - 1];
      Known(etors[..|etors| - 1])[last.name := last.value]
  }

  function EtorName(f: Function): string {
    PREFIX + f.key
  }

  function MakeEntry(f: Function, name: string, value: string): Etor {
    Etor(name, "Enumerator for $x" + f.fname, value, f.guard)
  }

  /** A known name keeps its value, any other takes the next one. */
  function ValueFor(known: map<string, string>, name: string, next: int): string {
    if name in known then known[name] else Str(next)
  }

  /** Function `i` keeps its value, or takes the next one above the mark in order of appearance. */
  function Entry(known: map<string, string>, fs: seq<Function>, i: nat, mark: int): Etor
    requires i < |fs|
  {
    var name := EtorName(fs[i]);
    MakeEntry(fs[i], name, ValueFor(known, name, mark + FreshRank(EtorName, known.Keys, fs, i)))
  }

  function Entries(known: map<string, string>, fs: seq<Function>, mark: int): seq<Etor> {
    seq(|fs|, i requires 0 <= i < |fs| => Entry(known, fs, i, mark))
  }

  /** The new document: the entries sorted by value, and the mark after the last new value. */
  function Assigned(known: map<string, string>, mark: int, fs: seq<Function>): FunctionType {
    FunctionType(Sort(Id, Entries(known, fs, mark)), Some(Str(mark + FreshCount(EtorName, known.Keys, fs))))
  }

  /** Without functions the refresh of the meta-data fails, for it names a largest enumerator. */
  function Generate(t: FunctionType, fs: seq<Function>): Result<FunctionType, Error> {
    if !AllNumeric(t.etors) then Err(ValueError)
    else if t.etors == [] then Err(EmptyEnum)
    else if fs == [] then Err(NoMaximum)
    else
      Ok(Assigned(Known(t.etors), PersistentMax(t), fs))
  }

  function AddPrefix(etors: seq<Etor>): seq<Etor> {
    seq(|etors|, i requires 0 <= i < |etors| => etors[i].(name := PREFIX + etors[i].name))
  }

  /** `name[len(prefix):]`, which is empty for a name shorter than the prefix. */
  function StripName(name: string): string {
    if |name| <= |PREFIX| then "" else name[|PREFIX|..]
  }

  function StripPrefix(etors: seq<Etor>): seq<Etor> {
    seq(|etors|, i requires 0 <= i < |etors| => etors[i].(name := StripName(etors[i].name)))
  }

  /** Reading the file: names are prefixed, values must be numbers below the limit. */
  function Load(file: FunctionType): Result<FunctionType, Error> {
    if !AllNumeric(file.etors) then Err(ValueError)
    else if exists e :: e in file.etors && Id(e) >= VALUE_LIMIT then Err(ValueTooLarge)
    else Ok(file.(etors := AddPrefix(file.etors)))
  }

  /** One run of the generator, from file to file. */
  function Run(file: FunctionType, fs: seq<Function>): Result<FunctionType, Error> {
    match Load(file)
    case Err(e) => Err(e)
    case Ok(t) =>
      match Generate(t, fs)
      case Err(e) => Err(e)
      case Ok(g) => Ok(g.(etors := StripPrefix(g.etors)))
  }

  /** The file after a run: a run that raises leaves it as it was. */
  function Next(file: FunctionType, fs: seq<Function>): FunctionType {
    match Run(file, fs)
    case Ok(next) => next
    case Err(_) => file
  }

  // ---------------------------------------------------------------- the pass over the document

  /** The in-memory document, whose fields the pass overwrites. */
  class Document {
    var etors: seq<Etor>
    var maxId: Option<string>

    constructor (t: FunctionType)
      ensures Value() == t
    {
      etors, maxId := t.etors, t.maxId;
    }

    function Value(): FunctionType
      reads this
    {
      FunctionType(etors, maxId)
    }

    /**
     Assigns the identifiers and returns the copy that is written back to the file. The failure
     for want of a function comes late: by then the list is empty and the mark is set.
     */
    method GenerateFunctionType(functions: seq<Function>) returns (r: Result<FunctionType, Error>)
      modifies this
      ensures match Generate(old(Value()), functions)
              case Ok(t) => Value() == t && r == Ok(t.(etors := StripPrefix(t.etors)))
              case Err(NoMaximum) =>
                r == Err(NoMaximum) && Value() == FunctionType([], Some(Str(PersistentMax(old(Value())))))
              case Err(e) => r == Err(e) && Value() == old(Value())
    {
      if !AllNumeric(etors) {
        return Err(ValueError);
      }
      if etors == [] {
        return Err(EmptyEnum);
      }
      AssignedEmptyIff(Known(etors), PersistentMax(Value()), functions);
      Overwrite(functions);
      var refreshed := Enums.RefreshMeta(Ids(etors));
      if !refreshed {
        return Err(NoMaximum);
      }
      var copy := StripAll(etors);
      r := Ok(FunctionType(copy, maxId));
    }

    /** Replaces the list and the mark. */
    method Overwrite(functions: seq<Function>)
      requires etors != []
      modifies this
      ensures Value() == Assigned(Known(old(etors)), PersistentMax(old(Value())), functions)
    {
      var known := BuildKnown(etors);
      var registry, persistentMax := AssignIds(known, functions, PersistentMax(Value()));
      etors := Sort(Id, registry);
      maxId := Some(Str(persistentMax));
    }

    /** The loop over the functions of the specification. */
    static method AssignIds(known: map<string, string>, functions: seq<Function>, mark: int)
      returns (registry: seq<Etor>, persistentMax: int)
      ensures registry == Entries(known, functions, mark)
      ensures persistentMax == mark + FreshCount(EtorName, known.Keys, functions)
    {
      persistentMax, registry := mark, [];
      for k := 0 to |functions|
        invariant registry == Entries(known, functions[..k], mark)
        invariant persistentMax == mark + FreshCount(EtorName, known.Keys, functions[..k])
      {
        var name := EtorName(functions[k]);
        assert functions[..k + 1] == functions[..k] + [functions[k]];
        EntriesAppend(known, functions[..k], functions[k], mark);
        LastEntry(known, functions[..k], functions[k], mark, FreshCount(EtorName, known.Keys, functions[..k]));
        var value;
        if name in known {
          value := known[name];
        } else {
          persistentMax := persistentMax + 1;
          value := Str(persistentMax);
        }
        registry := registry + [MakeEntry(functions[k], name, value)];
      }
      assert functions[..|functions|] == functions;
    }

    static method BuildKnown(etors: seq<Etor>) returns (known: map<string, string>)
      ensures known == Known(etors)
    {
      known := map[];
      for i := 0 to |etors|
        invariant known == Known(etors[..i])
      {
        known := known[etors[i].name := etors[i].value];
        assert etors[..i + 1][..i] == etors[..i];
      }
      assert etors[..|etors|] == etors;
    }

    static method StripAll(etors: seq<Etor>) returns (stripped: seq<Etor>)
      ensures stripped == StripPrefix(etors)
    {
      stripped := [];
      for i := 0 to |etors|
        invariant stripped == StripPrefix(etors)[..i]
      {
        stripped := stripped + [etors[i].(name := StripName(etors[i].name))];
      }
    }
  }

  lemma {:induction false} AssignedEmptyIff(known: map<string, string>, mark: int, fs: seq<Function>)
    ensures Assigned(known, mark, fs).etors == [] <==> fs == []
    ensures fs == [] ==> Assigned(known, mark, fs) == FunctionType([], Some(Str(mark)))
  {
    SortMultiset(Id, Entries(known, fs, mark));
  }

  lemma {:induction false} EarlierEntry(known: map<string, string>, fs: seq<Function>, f: Function, i: nat, mark: int)
    requires i < |fs|
    ensures Entry(known, fs + [f], i, mark) == Entry(known, fs, i, mark)
  {
    assert (fs + [f])[..i + 1] == fs[..i + 1];
  }

  lemma {:induction false} LastEntry(known: map<string, string>, fs: seq<Function>, f: Function, mark: int, count: nat)
    requires count == FreshCount(EtorName, known.Keys, fs)
    ensures FreshCount(EtorName, known.Keys, fs + [f]) == count + (if EtorName(f) in known then 0 else 1)
    ensures Entry(known, fs + [f], |fs|, mark) ==
            MakeEntry(f, EtorName(f), ValueFor(known, EtorName(f), mark + count + 1))
  {
    FreshAppend(EtorName, known.Keys, fs, f);
    assert (fs + [f])[..|fs| + 1] == fs + [f];
  }

  lemma {:induction false} EntriesAppend(known: map<string, string>, fs: seq<Function>, f: Function, mark: int)
    ensures Entries(known, fs + [f], mark) == Entries(known, fs, mark) + [Entry(known, fs + [f], |fs|, mark)]
  {
    forall i | 0 <= i < |fs|
      ensures Entry(known, fs + [f], i, mark) == Entry(known, fs, i, mark)
    {
      EarlierEntry(known, fs, f, i, mark);
    }
  }

  // ---------------------------------------------------------------- one run, in terms of the file

  /** The files that can be read and have an entry. */
  ghost predicate Runnable(file: FunctionType) {
    && file.etors != []
    && forall e :: e in file.etors ==> Numeric(e) && Id(e) < VALUE_LIMIT
  }

  /** `name` has identifier `id` in the file. */
  ghost predicate Carries(file: FunctionType, name: string, id: int) {
    exists e :: e in file.etors && e.name == name && ParseInt(e.value, 10) == Some(id)
  }

  function Key(f: Function): string {
    f.key
  }

  /** How many of the functions are not in the file. */
  function NewCount(file: FunctionType, fs: seq<Function>): nat {
    FreshCount(Key, Known(file.etors).Keys, fs)
  }

  function FileEntry(file: FunctionType, fs: seq<Function>, i: nat): Etor
    requires file.etors != [] && i < |fs|
  {
    var known := Known(file.etors);
    MakeEntry(fs[i], fs[i].key,
              ValueFor(known, fs[i].key, PersistentMax(file) + FreshRank(Key, known.Keys, fs, i)))
  }

  function FileEntries(file: FunctionType, fs: seq<Function>): seq<Etor>
    requires file.etors != []
  {
    seq(|fs|, i requires 0 <= i < |fs| => FileEntry(file, fs, i))
  }

  lemma {:induction false} KnownPrefixed(etors: seq<Etor>, key: string)
    ensures PREFIX + key in Known(AddPrefix(etors)) <==> key in Known(etors)
    ensures key in Known(etors) ==> Known(AddPrefix(etors))[PREFIX + key] == Known(etors)[key]
  {
    if etors != [] {
      var n := |etors| - 1;
      assert AddPrefix(etors)[..n] == AddPrefix(etors[..n]);
      KnownPrefixed(etors[..n], key);
      if PREFIX + key == PREFIX + etors[n].name {
        assert (PREFIX + key)[|PREFIX|..] == (PREFIX + etors[n].name)[|PREFIX|..];
      }
    }
  }

  lemma {:induction false} MaxPrefixed(etors: seq<Etor>)
    requires etors != []
    ensures MaxEnum(AddPrefix(etors)) == MaxEnum(etors)
  {
    if |etors| > 1 {
      assert AddPrefix(etors)[1..] == AddPrefix(etors[1..]);
      MaxPrefixed(etors[1..]);
    }
  }

  lemma {:induction false} NewIsFresh(file: FunctionType, fs: seq<Function>)
    ensures FreshCount(EtorName, Known(AddPrefix(file.etors)).Keys, fs) == NewCount(file, fs)
  {
    if fs != [] {
      NewIsFresh(file, fs[..|fs| - 1]);
      KnownPrefixed(file.etors, fs[|fs| - 1].key);
    }
  }

  lemma {:induction false} StrippedEntries(file: FunctionType, fs: seq<Function>)
    requires file.etors != []
    ensures StripPrefix(Entries(Known(AddPrefix(file.etors)), fs, PersistentMax(file))) == FileEntries(file, fs)
  {
    var known := Known(AddPrefix(file.etors));
    forall i | 0 <= i < |fs|
      ensures StripPrefix(Entries(known, fs, PersistentMax(file)))[i] == FileEntry(file, fs, i)
    {
      KnownPrefixed(file.etors, fs[i].key);
      NewIsFresh(file, fs[..i + 1]);
      assert StripName(EtorName(fs[i])) == fs[i].key;
    }
  }

  lemma {:induction false} StripCons(x: Etor, es: seq<Etor>)
    ensures StripPrefix([x] + es) == [x.(name := StripName(x.name))] + StripPrefix(es)
  {
    var all := [x] + es;
    assert forall i :: 0 <= i < |es| ==> all[i + 1] == es[i];
  }

  lemma {:induction false} StripInsert(x: Etor, es: seq<Etor>)
    ensures StripPrefix(Insert(Id, x, es)) == Insert(Id, x.(name := StripName(x.name)), StripPrefix(es))
  {
    if es == [] || Id(x) <= Id(es[0]) {
      StripCons(x, es);
    } else {
      StripInsert(x, es[1..]);
      StripCons(es[0], Insert(Id, x, es[1..]));
      assert StripPrefix(es)[1..] == StripPrefix(es[1..]);
    }
  }

  lemma {:induction false} StripSort(es: seq<Etor>)
    ensures StripPrefix(Sort(Id, es)) == Sort(Id, StripPrefix(es))
  {
    if es != [] {
      StripSort(es[1..]);
      assert StripPrefix(es)[1..] == StripPrefix(es[1..]);
      StripInsert(es[0], Sort(Id, es[1..]));
    }
  }

  lemma {:induction false} PrefixedAreNumeric(etors: seq<Etor>)
    requires AllNumeric(etors)
    ensures AllNumeric(AddPrefix(etors))
  {
    var ps := AddPrefix(etors);
    forall e | e in ps
      ensures Numeric(e)
    {
      var i :| 0 <= i < |ps| && ps[i] == e;
      assert Numeric(etors[i]);
    }
  }

  /** Exactly these runs go through; every other run leaves the file as it was. */
  ghost predicate GoesThrough(file: FunctionType, fs: seq<Function>) {
    Runnable(file) && fs != []
  }

  lemma {:induction false} RunSucceeds(file: FunctionType, fs: seq<Function>)
    ensures Run(file, fs).Ok? <==> GoesThrough(file, fs)
    ensures !GoesThrough(file, fs) ==> Next(file, fs) == file
  {
    if AllNumeric(file.etors) {
      PrefixedAreNumeric(file.etors);
    }
  }

  lemma {:induction false} MarkPrefixed(file: FunctionType)
    requires file.etors != []
    ensures PersistentMax(file.(etors := AddPrefix(file.etors))) == PersistentMax(file)
  {
    MaxPrefixed(file.etors);
  }

  lemma {:induction false} GenerateOnLoaded(file: FunctionType, fs: seq<Function>)
    requires file.etors != [] && AllNumeric(file.etors) && fs != []
    ensures Generate(file.(etors := AddPrefix(file.etors)), fs) ==
            Ok(Assigned(Known(AddPrefix(file.etors)), PersistentMax(file), fs))
  {
    PrefixedAreNumeric(file.etors);
    MarkPrefixed(file);
  }

  lemma {:induction false} StrippedSort(file: FunctionType, fs: seq<Function>)
    requires file.etors != []
    ensures StripPrefix(Sort(Id, Entries(Known(AddPrefix(file.etors)), fs, PersistentMax(file)))) ==
            Sort(Id, FileEntries(file, fs))
  {
    StripSort(Entries(Known(AddPrefix(file.etors)), fs, PersistentMax(file)));
    StrippedEntries(file, fs);
  }

  function FileOf(entries: seq<Etor>, mark: int): FunctionType {
    FunctionType(Sort(Id, entries), Some(Str(mark)))
  }

  /** The new file, in terms of the old one. */
  function NewFile(file: FunctionType, fs: seq<Function>): FunctionType
    requires file.etors != []
  {
    FileOf(FileEntries(file, fs), PersistentMax(file) + NewCount(file, fs))
  }

  lemma {:induction false} StrippedIsNewFile(file: FunctionType, fs: seq<Function>)
    requires file.etors != []
    ensures var g := Assigned(Known(AddPrefix(file.etors)), PersistentMax(file), fs);
            g.(etors := StripPrefix(g.etors)) == NewFile(file, fs)
  {
    StrippedSort(file, fs);
    NewIsFresh(file, fs);
  }

  /** The whole run, prefixes and all, in terms of what is in the file. */
  lemma {:induction false} RunShape(file: FunctionType, fs: seq<Function>)
    requires GoesThrough(file, fs)
    ensures Next(file, fs) == NewFile(file, fs)
  {
    assert Load(file) == Ok(file.(etors := AddPrefix(file.etors)));
    GenerateOnLoaded(file, fs);
    StrippedIsNewFile(file, fs);
  }

  // ---------------------------------------------------------------- what one run does to identifiers

  lemma {:induction false} KnownFacts(file: FunctionType, name: string)
    ensures name in Known(file.etors) <==> exists e :: e in file.etors && e.name == name
    ensures name in Known(file.etors) ==>
              exists e :: e in file.etors && e.name == name && e.value == Known(file.etors)[name]
    decreases |file.etors|
  {
    if file.etors != [] {
      var front := file.(etors := file.etors[..|file.etors| - 1]);
      KnownFacts(front, name);
      assert forall e :: e in file.etors <==> e in front.etors || e == file.etors[|file.etors| - 1];
    }
  }

  /** Of several entries with one name the last one gives the known value. */
  lemma {:induction false} LastEntryCounts(etors: seq<Etor>, i: nat)
    requires i < |etors| && forall j :: i < j < |etors| ==> etors[j].name != etors[i].name
    ensures etors[i].name in Known(etors) && Known(etors)[etors[i].name] == etors[i].value
  {
    if i < |etors| - 1 {
      LastEntryCounts(etors[..|etors| - 1], i);
    }
  }

  lemma {:induction false} KnownEntryId(file: FunctionType, fs: seq<Function>, i: nat)
    requires Runnable(file) && i < |fs| && fs[i].key in Known(file.etors)
    ensures var e := FileEntry(file, fs, i);
            Numeric(e) && Carries(file, e.name, Id(e)) && Id(e) <= PersistentMax(file)
  {
    KnownFacts(file, fs[i].key);
    var e :| e in file.etors && e.name == fs[i].key && e.value == Known(file.etors)[fs[i].key];
    assert Id(e) == Id(FileEntry(file, fs, i));
  }

  lemma {:induction false} FreshEntryId(file: FunctionType, fs: seq<Function>, i: nat)
    requires Runnable(file) && i < |fs| && fs[i].key !in Known(file.etors)
    ensures var e, mark := FileEntry(file, fs, i), PersistentMax(file);
            && Numeric(e)
            && Id(e) == mark + FreshRank(Key, Known(file.etors).Keys, fs, i)
            && mark < Id(e) <= mark + NewCount(file, fs)
  {
    StrRoundTrip(PersistentMax(file) + FreshRank(Key, Known(file.etors).Keys, fs, i));
    RankInRange(Key, Known(file.etors).Keys, fs, i);
  }

  /** Entry `i` of a run carries the identifier its name already had, or one above the mark. */
  lemma {:induction false} EntryId(file: FunctionType, fs: seq<Function>, i: nat)
    requires Runnable(file) && i < |fs|
    ensures var e, mark := FileEntry(file, fs, i), PersistentMax(file);
            && Numeric(e)
            && (e.name in Known(file.etors) ==> Carries(file, e.name, Id(e)) && Id(e) <= mark)
            && (e.name !in Known(file.etors) ==> mark < Id(e))
            && Id(e) <= mark + NewCount(file, fs)
  {
    if fs[i].key in Known(file.etors) {
      KnownEntryId(file, fs, i);
    } else {
      FreshEntryId(file, fs, i);
    }
  }

  /** Two functions that are not in the file get different identifiers. */
  lemma {:induction false} NewIdsDiffer(file: FunctionType, fs: seq<Function>, i: nat, j: nat)
    requires Runnable(file) && i < j < |fs|
    requires fs[i].key !in Known(file.etors) && fs[j].key !in Known(file.etors)
    ensures Id(FileEntry(file, fs, i)) < Id(FileEntry(file, fs, j))
  {
    FreshEntryId(file, fs, i);
    FreshEntryId(file, fs, j);
    RanksDiffer(Key, Known(file.etors).Keys, fs, i, j);
  }

  /** Every line of the new file is the entry of some function. */
  lemma {:induction false} EntryBehind(file: FunctionType, fs: seq<Function>, e: Etor) returns (i: nat)
    requires GoesThrough(file, fs) && e in Next(file, fs).etors
    ensures i < |fs| && FileEntry(file, fs, i) == e
  {
    var es := FileEntries(file, fs);
    assert e in es by {
      RunShape(file, fs);
      SortMembers(Id, es);
    }
    i :| 0 <= i < |es| && es[i] == e;
  }

  lemma {:induction false} EntryInNext(file: FunctionType, fs: seq<Function>, i: nat)
    requires Runnable(file) && i < |fs|
    ensures FileEntry(file, fs, i) in Next(file, fs).etors
  {
    var es := FileEntries(file, fs);
    assert es[i] in es;
    RunShape(file, fs);
    SortMembers(Id, es);
  }

  /** The new file lists every function once per occurrence and nothing else, in order of value. */
  lemma {:induction false} FileListsFunctions(file: FunctionType, fs: seq<Function>)
    requires GoesThrough(file, fs)
    ensures SortedBy(Id, Next(file, fs).etors)
    ensures multiset(Next(file, fs).etors) == multiset(FileEntries(file, fs))
  {
    RunShape(file, fs);
    SortSorted(Id, FileEntries(file, fs));
    SortMultiset(Id, FileEntries(file, fs));
  }

  /** How a function is written to the file. */
  lemma {:induction false} WrittenEntry(file: FunctionType, fs: seq<Function>, i: nat) returns (e: Etor)
    requires GoesThrough(file, fs) && i < |fs|
    ensures e in Next(file, fs).etors
    ensures e.name == fs[i].key && e.desc == "Enumerator for $x" + fs[i].fname && e.guard == fs[i].guard
  {
    e := FileEntry(file, fs, i);
    EntryTexts(file, fs, i);
    EntryInNext(file, fs, i);
  }

  lemma {:induction false} EntryTexts(file: FunctionType, fs: seq<Function>, i: nat)
    requires file.etors != [] && i < |fs|
    ensures var e := FileEntry(file, fs, i);
            e.name == fs[i].key && e.desc == "Enumerator for $x" + fs[i].fname && e.guard == fs[i].guard
  {
  }

  /** In memory, names start with the prefix of the enum, when it is read and when it is generated. */
  lemma {:induction false} NamesInMemory(file: FunctionType, fs: seq<Function>)
    requires GoesThrough(file, fs)
    ensures var loaded := Load(file);
            && loaded.Ok? && |loaded.value.etors| == |file.etors|
            && (forall i :: 0 <= i < |file.etors| ==> loaded.value.etors[i].name == "$X_FUNCTION_" + file.etors[i].name)
            && var g := Generate(loaded.value, fs);
            && g.Ok?
            && forall e :: e in g.value.etors ==> exists f :: f in fs && e.name == "$X_FUNCTION_" + f.key
  {
    var loaded := Load(file).value;
    PrefixedAreNumeric(file.etors);
    var es := Entries(Known(loaded.etors), fs, PersistentMax(loaded));
    SortMembers(Id, es);
    forall e | e in es
      ensures exists f :: f in fs && e.name == "$X_FUNCTION_" + f.key
    {
      var i :| 0 <= i < |es| && es[i] == e;
      assert fs[i] in fs;
    }
  }

  lemma {:induction false} CarriedByEntry(file: FunctionType, fs: seq<Function>, name: string, id: int)
    requires GoesThrough(file, fs)
    ensures Carries(Next(file, fs), name, id) <==>
              exists i :: 0 <= i < |fs| && fs[i].key == name && Id(FileEntry(file, fs, i)) == id
  {
    forall i | 0 <= i < |fs|
      ensures FileEntry(file, fs, i) in Next(file, fs).etors && Numeric(FileEntry(file, fs, i))
    {
      EntryId(file, fs, i);
      EntryInNext(file, fs, i);
    }
    if Carries(Next(file, fs), name, id) {
      var e :| e in Next(file, fs).etors && e.name == name && ParseInt(e.value, 10) == Some(id);
      var i := EntryBehind(file, fs, e);
    }
  }

  /** A function behind an identifier of the new file. */
  lemma {:induction false} Carrier(file: FunctionType, fs: seq<Function>, name: string, id: int) returns (i: nat)
    requires GoesThrough(file, fs) && Carries(Next(file, fs), name, id)
    ensures i < |fs| && fs[i].key == name && Id(FileEntry(file, fs, i)) == id
  {
    CarriedByEntry(file, fs, name, id);
    i :| 0 <= i < |fs| && fs[i].key == name && Id(FileEntry(file, fs, i)) == id;
  }

  lemma {:induction false} AboveMarkIsNew(file: FunctionType, fs: seq<Function>, i: nat)
    requires Runnable(file) && i < |fs| && PersistentMax(file) < Id(FileEntry(file, fs, i))
    ensures fs[i].key !in Known(file.etors)
  {
    EntryId(file, fs, i);
  }

  lemma OldIdBelowMark(file: FunctionType, name: string, id: int)
    requires Runnable(file) && Carries(file, name, id)
    ensures id <= PersistentMax(file)
  {
  }

  lemma {:induction false} CarriedIsOldOrNew(file: FunctionType, fs: seq<Function>, name: string, id: int)
    requires Runnable(file) && Carries(Next(file, fs), name, id)
    ensures id <= PersistentMax(file) + NewCount(file, fs)
    ensures id <= PersistentMax(file) ==> Carries(file, name, id)
  {
    RunSucceeds(file, fs);
    if fs == [] {
      assert Next(file, fs) == file;
    } else {
      var i := Carrier(file, fs, name, id);
      EntryId(file, fs, i);
    }
  }

  lemma {:induction false} NewEntriesShareNoId(file: FunctionType, fs: seq<Function>, i: nat, j: nat)
    requires Runnable(file) && i < |fs| && j < |fs| && PersistentMax(file) < Id(FileEntry(file, fs, i))
    requires Id(FileEntry(file, fs, i)) == Id(FileEntry(file, fs, j))
    ensures i == j
  {
    AboveMarkIsNew(file, fs, i);
    AboveMarkIsNew(file, fs, j);
    if i < j {
      NewIdsDiffer(file, fs, i, j);
    } else if j < i {
      NewIdsDiffer(file, fs, j, i);
    }
  }

  lemma {:induction false} NewIdHasOneName(
      file: FunctionType, fs: seq<Function>, name: string, name': string, id: int)
    requires GoesThrough(file, fs) && PersistentMax(file) < id
    requires Carries(Next(file, fs), name, id) && Carries(Next(file, fs), name', id)
    ensures name == name'
  {
    var i := Carrier(file, fs, name, id);
    var j := Carrier(file, fs, name', id);
    NewEntriesShareNoId(file, fs, i, j);
  }

  /** An identifier above the mark is new, and only one name gets it. */
  lemma {:induction false} RunIds(file: FunctionType, fs: seq<Function>)
    requires Runnable(file)
    ensures var next := Next(file, fs);
            && (forall name, id :: Carries(next, name, id) ==>
                  && id <= PersistentMax(file) + NewCount(file, fs)
                  && (id <= PersistentMax(file) ==> Carries(file, name, id)))
            && (forall name, name', id ::
                  PersistentMax(file) < id && Carries(next, name, id) && Carries(next, name', id) ==> name == name')
  {
    var next := Next(file, fs);
    forall name, id | Carries(next, name, id)
      ensures id <= PersistentMax(file) + NewCount(file, fs)
      ensures id <= PersistentMax(file) ==> Carries(file, name, id)
    {
      CarriedIsOldOrNew(file, fs, name, id);
    }
    forall name, name', id | PersistentMax(file) < id && Carries(next, name, id) && Carries(next, name', id)
      ensures name == name'
    {
      if fs == [] {
        RunSucceeds(file, fs);
        OldIdBelowMark(file, name, id);
      } else {
        NewIdHasOneName(file, fs, name, name', id);
      }
    }
  }

  lemma {:induction false} NextBelowMark(file: FunctionType, fs: seq<Function>)
    requires Runnable(file) && Runnable(Next(file, fs))
    ensures MaxEnum(Next(file, fs).etors) <= PersistentMax(file) + NewCount(file, fs)
  {
    var next := Next(file, fs);
    var largest := MaxEnum(next.etors);
    var e :| e in next.etors && Id(e) == largest;
    assert Carries(next, e.name, Id(e));
    RunIds(file, fs);
  }

  lemma {:induction false} NewFileMark(file: FunctionType, fs: seq<Function>, next: FunctionType)
    requires file.etors != [] && next == NewFile(file, fs)
    ensures next.maxId == Some(Str(PersistentMax(file) + NewCount(file, fs)))
  {
  }

  lemma {:induction false} MaxIdStored(file: FunctionType, fs: seq<Function>)
    requires GoesThrough(file, fs)
    ensures Next(file, fs).maxId == Some(Str(PersistentMax(file) + NewCount(file, fs)))
  {
    RunShape(file, fs);
    NewFileMark(file, fs, Next(file, fs));
  }

  lemma {:induction false} StoredMarkWins(t: FunctionType, mark: int)
    requires t.etors != [] && t.maxId == Some(Str(mark)) && MaxEnum(t.etors) <= mark
    ensures PersistentMax(t) == mark
  {
    StrRoundTrip(mark);
  }

  /** The run stores its mark, and the next run starts from it. */
  lemma {:induction false} MarkIsStored(file: FunctionType, fs: seq<Function>)
    requires Runnable(file) && Runnable(Next(file, fs))
    ensures PersistentMax(Next(file, fs)) == PersistentMax(file) + NewCount(file, fs)
  {
    RunSucceeds(file, fs);
    if fs == [] {
      return;
    }
    MaxIdStored(file, fs);
    NextBelowMark(file, fs);
    StoredMarkWins(Next(file, fs), PersistentMax(file) + NewCount(file, fs));
  }

  function IsNewTo(file: FunctionType): Function -> bool {
    var known := Known(file.etors).Keys;
    (f: Function) => f.key !in known
  }

  lemma {:induction false} KthNewEntry(file: FunctionType, fs: seq<Function>, i: nat, k: nat)
    requires Runnable(file) && i < |fs| && fs[i].key !in Known(file.etors)
    requires k == |Filter(IsNewTo(file), fs[..i + 1])|
    ensures Id(FileEntry(file, fs, i)) == PersistentMax(file) + k
  {
    FreshIsFiltered(Key, Known(file.etors).Keys, IsNewTo(file), fs[..i + 1]);
    FreshEntryId(file, fs, i);
  }

  /** The k-th new function gets the mark plus k. */
  lemma {:induction false} KthNewFunction(file: FunctionType, fs: seq<Function>, i: nat, k: nat, id: int)
    requires Runnable(file) && i < |fs| && fs[i].key !in Known(file.etors)
    requires k == |Filter(IsNewTo(file), fs[..i + 1])| && id == PersistentMax(file) + k
    ensures Carries(Next(file, fs), fs[i].key, id)
  {
    KthNewEntry(file, fs, i, k);
    CarriedByEntry(file, fs, fs[i].key, id);
  }

  lemma {:induction false} MarkWithoutStored(file: FunctionType, largest: Etor)
    requires file.maxId == None && largest in file.etors && forall e :: e in file.etors ==> Id(e) <= Id(largest)
    ensures PersistentMax(file) == Id(largest)
  {
    MarkIsLargest(file);
  }

  /** Without a stored mark, numbering goes on from the largest identifier in the file. */
  lemma {:induction false} KthNewFunctionWithoutMark(
      file: FunctionType, fs: seq<Function>, i: nat, k: nat, largest: Etor, id: int)
    requires Runnable(file) && file.maxId == None && i < |fs| && fs[i].key !in Known(file.etors)
    requires largest in file.etors && forall e :: e in file.etors ==> Id(e) <= Id(largest)
    requires k == |Filter(IsNewTo(file), fs[..i + 1])| && id == Id(largest) + k
    ensures Carries(Next(file, fs), fs[i].key, id)
  {
    MarkWithoutStored(file, largest);
    KthNewFunction(file, fs, i, k, id);
  }

  // ---------------------------------------------------------------- all histories

  /**
   The file after the given runs. A run that fails elsewhere, say over the structures, leaves the
   file alone like a run without functions, so histories with such runs are histories of this kind.
   */
  function After(file: FunctionType, runs: seq<seq<Function>>): FunctionType {
    if runs == [] then file
    else Next(After(file, runs[..|runs| - 1]), runs[|runs| - 1])
  }

  /** At some point of the history `name` had identifier `id`. */
  ghost predicate EverCarried(file: FunctionType, runs: seq<seq<Function>>, name: string, id: int) {
    exists k :: 0 <= k <= |runs| && Carries(After(file, runs[..k]), name, id)
  }

  /** No identifier is carried by two different names, at the same time or at different times. */
  ghost predicate NeverReused(file: FunctionType, runs: seq<seq<Function>>) {
    forall name, name', id ::
      EverCarried(file, runs, name, id) && EverCarried(file, runs, name', id) ==> name == name'
  }

  ghost predicate OneNamePerId(file: FunctionType) {
    forall name, name', id :: Carries(file, name, id) && Carries(file, name', id) ==> name == name'
  }

  lemma {:induction false} EverFirst(file: FunctionType, name: string, id: int)
    ensures EverCarried(file, [], name, id) <==> Carries(file, name, id)
  {
    var none: seq<seq<Function>> := [];
    assert none[..0] == none;
    assert After(file, none[..0]) == file;
  }

  lemma {:induction false} EverStep(
      file: FunctionType, runs: seq<seq<Function>>, last: seq<Function>, name: string, id: int)
    ensures EverCarried(file, runs + [last], name, id) <==>
              EverCarried(file, runs, name, id) || Carries(After(file, runs + [last]), name, id)
  {
    var all := runs + [last];
    assert all[..|all|] == all;
    assert forall k :: 0 <= k <= |runs| ==> all[..k] == runs[..k];
    if EverCarried(file, runs, name, id) {
      var k :| 0 <= k <= |runs| && Carries(After(file, runs[..k]), name, id);
      assert Carries(After(file, all[..k]), name, id);
    }
    if EverCarried(file, all, name, id) {
      var k :| 0 <= k <= |all| && Carries(After(file, all[..k]), name, id);
      if k < |all| {
        assert Carries(After(file, runs[..k]), name, id);
      }
    }
  }

  lemma {:induction false} NowIsEver(file: FunctionType, runs: seq<seq<Function>>, name: string, id: int)
    requires Carries(After(file, runs), name, id)
    ensures EverCarried(file, runs, name, id)
  {
    assert runs[..|runs|] == runs;
  }

  ghost predicate Bounds(mark: int, file: FunctionType, runs: seq<seq<Function>>) {
    forall name, id :: EverCarried(file, runs, name, id) ==> id <= mark
  }

  /** The mark bounds every identifier that was ever issued. */
  lemma {:induction false} MarkBoundsHistory(file: FunctionType, runs: seq<seq<Function>>)
    requires Runnable(After(file, runs))
    ensures Bounds(PersistentMax(After(file, runs)), file, runs)
  {
    if runs == [] {
      forall name, id | EverCarried(file, runs, name, id)
        ensures id <= PersistentMax(file)
      {
        EverFirst(file, name, id);
      }
    } else {
      var front, last := runs[..|runs| - 1], runs[|runs| - 1];
      assert runs == front + [last];
      var before := After(file, front);
      RunSucceeds(before, last);
      MarkBoundsHistory(file, front);
      MarkIsStored(before, last);
      forall name, id | EverCarried(file, runs, name, id)
        ensures id <= PersistentMax(After(file, runs))
      {
        EverStep(file, front, last, name, id);
      }
    }
  }

  lemma {:induction false} NoClashNoReuse(
      file: FunctionType, runs: seq<seq<Function>>, name: string, name': string, id: int)
    requires OneNamePerId(file)
    requires EverCarried(file, runs, name, id) && EverCarried(file, runs, name', id)
    ensures name == name'
    decreases |runs|
  {
    if runs == [] {
      EverFirst(file, name, id);
      EverFirst(file, name', id);
    } else {
      var front, last := runs[..|runs| - 1], runs[|runs| - 1];
      assert runs == front + [last];
      var before := After(file, front);
      EverStep(file, front, last, name, id);
      EverStep(file, front, last, name', id);
      RunSucceeds(before, last);
      if Runnable(before) {
        MarkBoundsHistory(file, front);
        RunIds(before, last);
      }
      if PersistentIdAbove(before, id) {
        assert !EverCarried(file, front, name, id) && !EverCarried(file, front, name', id);
      } else {
        if Carries(After(file, runs), name, id) {
          NowIsEver(file, front, name, id);
        }
        if Carries(After(file, runs), name', id) {
          NowIsEver(file, front, name', id);
        }
        NoClashNoReuse(file, front, name, name', id);
      }
    }
  }

  ghost predicate PersistentIdAbove(file: FunctionType, id: int) {
    Runnable(file) && PersistentMax(file) < id
  }

  /** Identifiers are never reused over any history exactly when the first file has no clash. */
  lemma {:induction false} IdsAreNeverReused(file: FunctionType, runs: seq<seq<Function>>)
    ensures NeverReused(file, runs) <==> OneNamePerId(file)
  {
    if OneNamePerId(file) {
      forall name, name', id | EverCarried(file, runs, name, id) && EverCarried(file, runs, name', id)
        ensures name == name'
      {
        NoClashNoReuse(file, runs, name, name', id);
      }
    } else {
      var name, name', id :| Carries(file, name, id) && Carries(file, name', id) && name != name';
      assert After(file, runs[..0]) == file;
      assert EverCarried(file, runs, name, id) && EverCarried(file, runs, name', id);
    }
  }

  lemma StoredBelowMark(file: FunctionType)
    requires file.etors != [] && StoredMark(file).Some?
    ensures StoredMark(file).value <= PersistentMax(file)
  {
  }

  lemma {:induction false} StoredOf(file: FunctionType, mark: int)
    requires file.maxId == Some(Str(mark))
    ensures StoredMark(file) == Some(mark)
  {
    StrRoundTrip(mark);
  }

  lemma {:induction false} StoredMarkStep(file: FunctionType, fs: seq<Function>)
    requires GoesThrough(file, fs)
    ensures StoredMark(Next(file, fs)) == Some(PersistentMax(file) + NewCount(file, fs))
  {
    MaxIdStored(file, fs);
    StoredOf(Next(file, fs), PersistentMax(file) + NewCount(file, fs));
  }

  /** The mark in the file bounds every identifier of the history so far. */
  ghost predicate StoredMarkBounds(file: FunctionType, runs: seq<seq<Function>>) {
    StoredMark(After(file, runs)).Some? && Bounds(StoredMark(After(file, runs)).value, file, runs)
  }

  /** The mark in the file bounds the identifiers in the file. */
  ghost predicate MarkBoundsFile(file: FunctionType) {
    StoredMark(file).Some? && forall name, id :: Carries(file, name, id) ==> id <= StoredMark(file).value
  }

  lemma {:induction false} FirstMarkBounds(file: FunctionType)
    ensures StoredMarkBounds(file, []) <==> MarkBoundsFile(file)
  {
    forall name, id
      ensures EverCarried(file, [], name, id) <==> Carries(file, name, id)
    {
      EverFirst(file, name, id);
    }
  }

  /** A run that fails keeps the stored mark right or wrong; one that goes through makes it right. */
  lemma {:induction false} StoredMarkBoundsStep(file: FunctionType, front: seq<seq<Function>>, last: seq<Function>)
    ensures StoredMarkBounds(file, front + [last]) <==>
              StoredMarkBounds(file, front) || GoesThrough(After(file, front), last)
  {
    var runs, before := front + [last], After(file, front);
    assert runs[..|front|] == front;
    RunSucceeds(before, last);
    forall name, id
      ensures EverCarried(file, runs, name, id) <==>
                EverCarried(file, front, name, id) || Carries(Next(before, last), name, id)
    {
      EverStep(file, front, last, name, id);
      if Carries(before, name, id) {
        NowIsEver(file, front, name, id);
      }
    }
    if GoesThrough(before, last) {
      StoredMarkStep(before, last);
      MarkBoundsHistory(file, front);
      RunIds(before, last);
    } else {
      StoredMarkKept(file, front, runs);
    }
  }

  lemma {:induction false} StoredMarkKept(file: FunctionType, front: seq<seq<Function>>, runs: seq<seq<Function>>)
    requires After(file, runs) == After(file, front)
    requires forall name, id :: EverCarried(file, runs, name, id) <==>
                                  EverCarried(file, front, name, id) || Carries(After(file, front), name, id)
    ensures StoredMarkBounds(file, runs) <==> StoredMarkBounds(file, front)
  {
    forall name, id
      ensures EverCarried(file, runs, name, id) <==> EverCarried(file, front, name, id)
    {
      if Carries(After(file, front), name, id) {
        NowIsEver(file, front, name, id);
      }
    }
  }

  lemma {:induction false} EmptyRunsKeepFile(file: FunctionType, runs: seq<seq<Function>>)
    requires forall k :: 0 <= k < |runs| ==> runs[k] == []
    ensures After(file, runs) == file
  {
    if runs != [] {
      EmptyRunsKeepFile(file, runs[..|runs| - 1]);
      RunSucceeds(file, []);
    }
  }

  lemma {:induction false} UnreadableStays(file: FunctionType, runs: seq<seq<Function>>)
    requires !Runnable(file)
    ensures After(file, runs) == file
  {
    if runs != [] {
      UnreadableStays(file, runs[..|runs| - 1]);
      RunSucceeds(file, runs[|runs| - 1]);
    }
  }

  /**
   The mark in the file bounds every identifier ever issued if and only if some run had a function,
   or the mark of the first file already bounded its identifiers.
   */
  lemma {:induction false} StoredMarkBoundsHistory(file: FunctionType, runs: seq<seq<Function>>)
    ensures StoredMarkBounds(file, runs) <==>
              || MarkBoundsFile(file)
              || (Runnable(file) && exists k :: 0 <= k < |runs| && runs[k] != [])
    decreases |runs|
  {
    if runs == [] {
      FirstMarkBounds(file);
    } else {
      var front, last := runs[..|runs| - 1], runs[|runs| - 1];
      assert runs == front + [last];
      StoredMarkBoundsHistory(file, front);
      StoredMarkBoundsStep(file, front, last);
      if !Runnable(file) {
        UnreadableStays(file, front);
      } else if forall k :: 0 <= k < |front| ==> front[k] == [] {
        EmptyRunsKeepFile(file, front);
      }
    }
  }

  /** If the first file stores a mark, so does the second, and it is no smaller. */
  predicate MarkKept(file: FunctionType, later: FunctionType) {
    StoredMark(file).Some? ==> StoredMark(later).Some? && StoredMark(file).value <= StoredMark(later).value
  }

  lemma MarkKeptTransitive(a: FunctionType, b: FunctionType, c: FunctionType)
    requires MarkKept(a, b) && MarkKept(b, c)
    ensures MarkKept(a, c)
  {
  }

  lemma {:induction false} RunKeepsMark(file: FunctionType, fs: seq<Function>, next: FunctionType)
    requires next == Next(file, fs)
    ensures MarkKept(file, next)
  {
    RunSucceeds(file, fs);
    if GoesThrough(file, fs) && StoredMark(file).Some? {
      StoredBelowMark(file);
      StoredMarkStep(file, fs);
    }
  }

  /** A mark in the file stays there and never decreases. */
  lemma {:induction false} StoredMarkNeverDecreases(file: FunctionType, runs: seq<seq<Function>>, i: nat, j: nat)
    requires i <= j <= |runs|
    ensures MarkKept(After(file, runs[..i]), After(file, runs[..j]))
    decreases j
  {
    if i < j {
      StoredMarkNeverDecreases(file, runs, i, j - 1);
      AfterLast(file, runs, j);
      RunKeepsMark(After(file, runs[..j - 1]), runs[j - 1], After(file, runs[..j]));
      MarkKeptTransitive(After(file, runs[..i]), After(file, runs[..j - 1]), After(file, runs[..j]));
    }
  }

  // ---------------------------------------------------------------- survivors and regeneration

  ghost predicate OneIdPerName(file: FunctionType) {
    forall name, id, id' :: Carries(file, name, id) && Carries(file, name, id') ==> id == id'
  }

  /** Functions that share a key are ones the file already knows. */
  predicate FreshKeysDistinct(file: FunctionType, fs: seq<Function>) {
    forall i, j :: 0 <= i < j < |fs| && fs[i].key == fs[j].key ==> fs[i].key in Known(file.etors)
  }

  predicate HasKey(fs: seq<Function>, key: string) {
    exists i :: 0 <= i < |fs| && fs[i].key == key
  }

  predicate DistinctKeys(fs: seq<Function>) {
    forall i, j :: 0 <= i < j < |fs| ==> fs[i].key != fs[j].key
  }

  /** A known name that is still a function is carried with its known identifier only. */
  lemma {:induction false} KnownNameKeepsId(file: FunctionType, fs: seq<Function>, name: string, id: int)
    requires Runnable(file) && HasKey(fs, name) && name in Known(file.etors)
    ensures Carries(Next(file, fs), name, id) <==> ParseInt(Known(file.etors)[name], 10) == Some(id)
    ensures ParseInt(Known(file.etors)[name], 10) == Some(id) ==> Carries(file, name, id)
    ensures ParseInt(Known(file.etors)[name], 10).Some?
  {
    CarriedByEntry(file, fs, name, id);
    KnownFacts(file, name);
    var i :| 0 <= i < |fs| && fs[i].key == name;
    EntryId(file, fs, i);
    if Carries(Next(file, fs), name, id) {
      var j := Carrier(file, fs, name, id);
      EntryId(file, fs, j);
    }
  }

  lemma {:induction false} DistinctKeysGiveOneId(
      file: FunctionType, fs: seq<Function>, name: string, id: int, id': int)
    requires GoesThrough(file, fs) && FreshKeysDistinct(file, fs)
    requires Carries(Next(file, fs), name, id) && Carries(Next(file, fs), name, id')
    ensures id == id'
  {
    if name in Known(file.etors) {
      var i := Carrier(file, fs, name, id);
      KnownNameKeepsId(file, fs, name, id);
      KnownNameKeepsId(file, fs, name, id');
    } else {
      var i := Carrier(file, fs, name, id);
      var j := Carrier(file, fs, name, id');
      assert i == j;
    }
  }

  lemma {:induction false} SharedKeyGivesTwoIds(file: FunctionType, fs: seq<Function>)
    requires GoesThrough(file, fs) && !FreshKeysDistinct(file, fs)
    ensures !OneIdPerName(Next(file, fs))
  {
    var i, j :| 0 <= i < j < |fs| && fs[i].key == fs[j].key && fs[i].key !in Known(file.etors);
    NewIdsDiffer(file, fs, i, j);
    CarriedByEntry(file, fs, fs[i].key, Id(FileEntry(file, fs, i)));
    CarriedByEntry(file, fs, fs[i].key, Id(FileEntry(file, fs, j)));
  }

  /**
   A run that goes through leaves one identifier per name exactly when no two of its new functions
   share a key; without functions the file stays as it is.
   */
  lemma {:induction false} OneIdPerNameAfter(file: FunctionType, fs: seq<Function>)
    requires Runnable(file)
    ensures OneIdPerName(Next(file, fs)) <==>
              if fs == [] then OneIdPerName(file) else FreshKeysDistinct(file, fs)
  {
    RunSucceeds(file, fs);
    if fs != [] {
      if FreshKeysDistinct(file, fs) {
        forall name, id, id' | Carries(Next(file, fs), name, id) && Carries(Next(file, fs), name, id')
          ensures id == id'
        {
          DistinctKeysGiveOneId(file, fs, name, id, id');
        }
      } else {
        SharedKeyGivesTwoIds(file, fs);
      }
    }
  }

  lemma {:induction false} SurvivorStep(file: FunctionType, fs: seq<Function>, name: string, id: int)
    requires OneIdPerName(file) && HasKey(fs, name) && DistinctKeys(fs) && Carries(file, name, id)
    ensures OneIdPerName(Next(file, fs)) && Carries(Next(file, fs), name, id)
  {
    RunSucceeds(file, fs);
    if Runnable(file) {
      OneIdPerNameAfter(file, fs);
      KnownFacts(file, name);
      KnownNameKeepsId(file, fs, name, id);
      var known := ParseInt(Known(file.etors)[name], 10).value;
      KnownNameKeepsId(file, fs, name, known);
    }
  }

  lemma {:induction false} SurvivorsCarry(
      file: FunctionType, runs: seq<seq<Function>>, i: nat, j: nat, name: string, id: int)
    requires i <= j <= |runs|
    requires OneIdPerName(After(file, runs[..i])) && Carries(After(file, runs[..i]), name, id)
    requires forall k :: i <= k < j ==> DistinctKeys(runs[k]) && HasKey(runs[k], name)
    ensures OneIdPerName(After(file, runs[..j])) && Carries(After(file, runs[..j]), name, id)
    decreases j
  {
    if i < j {
      SurvivorsCarry(file, runs, i, j - 1, name, id);
      AfterLast(file, runs, j);
      SurvivorStep(After(file, runs[..j - 1]), runs[j - 1], name, id);
    }
  }

  lemma {:induction false} AfterLast(file: FunctionType, runs: seq<seq<Function>>, j: nat)
    requires 0 < j <= |runs|
    ensures After(file, runs[..j]) == Next(After(file, runs[..j - 1]), runs[j - 1])
  {
    assert runs[..j][..j - 1] == runs[..j - 1];
  }

  /** A name that stays in the specification through runs `i` to `j` keeps its identifier. */
  lemma {:induction false} SurvivorsKeepIds(
      file: FunctionType, runs: seq<seq<Function>>, i: nat, j: nat, name: string, id: int)
    requires i <= j <= |runs|
    requires OneIdPerName(After(file, runs[..i])) && Carries(After(file, runs[..i]), name, id)
    requires forall k :: i <= k < j ==> DistinctKeys(runs[k]) && HasKey(runs[k], name)
    ensures forall id' :: Carries(After(file, runs[..j]), name, id') <==> id' == id
  {
    SurvivorsCarry(file, runs, i, j, name, id);
  }

  predicate FitsLimit(file: FunctionType, fs: seq<Function>)
    requires file.etors != []
  {
    NewCount(file, fs) == 0 || PersistentMax(file) + NewCount(file, fs) < 0x7FFF_FFFF
  }

  lemma OldIdFits(file: FunctionType, name: string, id: int)
    requires Runnable(file) && Carries(file, name, id)
    ensures id < VALUE_LIMIT
  {
  }

  lemma {:induction false} EntryFits(file: FunctionType, fs: seq<Function>, i: nat)
    requires Runnable(file) && i < |fs| && FitsLimit(file, fs)
    ensures Id(FileEntry(file, fs, i)) < VALUE_LIMIT
  {
    EntryId(file, fs, i);
    if fs[i].key in Known(file.etors) {
      OldIdFits(file, fs[i].key, Id(FileEntry(file, fs, i)));
    } else {
      RankInRange(Key, Known(file.etors).Keys, fs, i);
    }
  }

  /** The file after a run can be read again exactly when the new identifiers fit. */
  lemma {:induction false} NextRunnable(file: FunctionType, fs: seq<Function>)
    requires Runnable(file)
    ensures Runnable(Next(file, fs)) <==> FitsLimit(file, fs)
  {
    var next := Next(file, fs);
    RunSucceeds(file, fs);
    if fs == [] {
      return;
    }
    EntryInNext(file, fs, 0);
    if FitsLimit(file, fs) {
      forall e | e in next.etors
        ensures Numeric(e) && Id(e) < VALUE_LIMIT
      {
        var i := EntryBehind(file, fs, e);
        EntryId(file, fs, i);
        EntryFits(file, fs, i);
      }
    } else {
      var i := RankReached(Key, Known(file.etors).Keys, fs, NewCount(file, fs));
      FreshEntryId(file, fs, i);
      EntryInNext(file, fs, i);
    }
  }

  lemma {:induction false} AllKnownNext(file: FunctionType, fs: seq<Function>, i: nat)
    requires Runnable(file) && i < |fs|
    ensures fs[i].key in Known(Next(file, fs).etors)
  {
    CarriedByEntry(file, fs, fs[i].key, Id(FileEntry(file, fs, i)));
    KnownFacts(Next(file, fs), fs[i].key);
  }

  lemma {:induction false} ValueKeptNext(file: FunctionType, fs: seq<Function>, i: nat)
    requires Runnable(file) && i < |fs| && FreshKeysDistinct(file, fs)
    ensures fs[i].key in Known(Next(file, fs).etors)
    ensures Known(Next(file, fs).etors)[fs[i].key] == FileEntry(file, fs, i).value
  {
    var next, key := Next(file, fs), fs[i].key;
    AllKnownNext(file, fs, i);
    KnownFacts(next, key);
    var e :| e in next.etors && e.name == key && e.value == Known(next.etors)[key];
    var j := EntryBehind(file, fs, e);
    assert key in Known(file.etors) || i == j;
  }

  lemma {:induction false} EntriesAgain(file: FunctionType, fs: seq<Function>)
    requires Runnable(file) && Runnable(Next(file, fs)) && FreshKeysDistinct(file, fs)
    ensures FileEntries(Next(file, fs), fs) == FileEntries(file, fs)
    ensures NewCount(Next(file, fs), fs) == 0
  {
    var once := Next(file, fs);
    forall i | 0 <= i < |fs|
      ensures fs[i].key in Known(once.etors) && FileEntry(once, fs, i) == FileEntry(file, fs, i)
    {
      ValueKeptNext(file, fs, i);
    }
    NothingFresh(Key, Known(once.etors).Keys, fs);
  }

  lemma {:induction false} SameShape(once: FunctionType, fs: seq<Function>, entries: seq<Etor>, mark: int)
    requires once.etors != [] && once == FileOf(entries, mark)
    requires FileEntries(once, fs) == entries && PersistentMax(once) + NewCount(once, fs) == mark
    ensures NewFile(once, fs) == once
  {
  }

  lemma {:induction false} AgainTheSame(file: FunctionType, fs: seq<Function>)
    requires GoesThrough(file, fs) && Runnable(Next(file, fs)) && FreshKeysDistinct(file, fs)
    ensures Next(Next(file, fs), fs) == Next(file, fs)
  {
    var once := Next(file, fs);
    EntriesAgain(file, fs);
    MarkIsStored(file, fs);
    RunShape(file, fs);
    SameShape(once, fs, FileEntries(file, fs), PersistentMax(file) + NewCount(file, fs));
    RunShape(once, fs);
  }

  lemma {:induction false} AgainDifferent(file: FunctionType, fs: seq<Function>)
    requires GoesThrough(file, fs) && Runnable(Next(file, fs)) && !FreshKeysDistinct(file, fs)
    ensures Next(Next(file, fs), fs) != Next(file, fs)
  {
    var once := Next(file, fs);
    forall i | 0 <= i < |fs|
      ensures fs[i].key in Known(once.etors)
    {
      AllKnownNext(file, fs, i);
    }
    OneIdPerNameAfter(file, fs);
    OneIdPerNameAfter(once, fs);
  }

  /**
   Regeneration on the same functions reproduces the file exactly (names, identifiers, order,
   descriptions, guards and mark) if and only if there is a function, no two new functions
   share a key, and the new identifiers stay below the limit that reading enforces.
   */
  lemma {:induction false} RegenerationIsFixedPoint(file: FunctionType, fs: seq<Function>)
    requires Runnable(file)
    ensures Run(Next(file, fs), fs) == Ok(Next(file, fs)) <==>
              fs != [] && FitsLimit(file, fs) && FreshKeysDistinct(file, fs)
  {
    var once := Next(file, fs);
    NextRunnable(file, fs);
    RunSucceeds(once, fs);
    if Runnable(once) && fs != [] {
      if FreshKeysDistinct(file, fs) {
        AgainTheSame(file, fs);
      } else {
        AgainDifferent(file, fs);
      }
      assert Run(once, fs) == Ok(Next(once, fs));
    }
  }

  /** Two new functions with one key get two identifiers at first, and one when the generator runs again. */
  lemma {:induction false} SharedKeyIsNotStable(file: FunctionType, f: Function, g: Function)
    requires Runnable(file) && f.key == g.key && f.key !in Known(file.etors)
    ensures Run(Next(file, [f, g]), [f, g]) != Ok(Next(file, [f, g]))
  {
    RegenerationIsFixedPoint(file, [f, g]);
    assert [f, g][0].key == [f, g][1].key;
  }

  /** The smallest failing case. */
  lemma {:induction false} SharedKeyExample()
    ensures var file := FunctionType([Etor("A", "", "0", None)], None);
            var fs := [Function("B", "B", None), Function("B", "B", None)];
            Run(file, fs).Ok? && Run(Next(file, fs), fs) != Ok(Next(file, fs))
  {
    var file := FunctionType([Etor("A", "", "0", None)], None);
    var f := Function("B", "B", None);
    assert ParseInt("0", 10) == Some(0) by {
      assert Str(0) == "0";
      StrRoundTrip(0);
    }
    assert Id(file.etors[0]) == 0;
    RunSucceeds(file, [f, f]);
    assert f.key !in Known(file.etors) by {
      KnownFacts(file, f.key);
    }
    SharedKeyIsNotStable(file, f, f);
  }
}
