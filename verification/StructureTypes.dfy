/**
 The identifiers of extended structures. They are assigned like those of functions, but no mark
 is stored: the next identifier follows the largest one that is still in the list.
 */
module StructureTypes {
  import opened Prelude
  import opened StableSort
  import opened Assignment
  import Enums

  /** An enumerator, by its bare name; its value is an integer here. */
  datatype Etor = Etor(name: string, id: int)

  /** A structure with a base, and the enumerator that its `stype` member names. */
  datatype Struct = Struct(name: string, etor: string)

  const EXPERIMENTAL := "$x_exp_"

  function Id(e: Etor): int {
    e.id
  }

  function Ids(etors: seq<Etor>): (ids: seq<int>)
    ensures |ids| == |etors|
  {
    seq(|etors|, i requires 0 <= i < |etors| => etors[i].id)
  }

  function EtorName(s: Struct): string {
    s.etor
  }

  function MaxId(etors: seq<Etor>): (m: int)
    requires etors != []
    ensures forall e :: e in etors ==> e.id <= m
    ensures exists e :: e in etors && e.id == m
  {
    if |etors| == 1 then etors[0].id
    else
      var rest := MaxId(etors[1..]);
      if etors[0].id < rest then rest else etors[0].id
  }

  function Names(etors: seq<Etor>): set<string> {
    set e | e in etors :: e.name
  }

  /** The value of the first enumerator with the name. */
  function FirstId(etors: seq<Etor>, name: string): (id: int)
    requires name in Names(etors)
    ensures Etor(name, id) in etors
  {
    if etors[0].name == name then etors[0].id else FirstId(etors[1..], name)
  }

  lemma {:induction false} FirstEntryCounts(etors: seq<Etor>, i: nat)
    requires i < |etors| && forall j :: 0 <= j < i ==> etors[j].name != etors[i].name
    ensures etors[i].name in Names(etors) && FirstId(etors, etors[i].name) == etors[i].id
  {
    assert etors[i] in etors;
    if i > 0 {
      assert etors[1..][i - 1] == etors[i];
      FirstEntryCounts(etors[1..], i - 1);
    }
  }

  predicate IsIncluded(s: Struct) {
    !(EXPERIMENTAL <= s.name)
  }

  lemma {:induction false} IncludedIff(s: Struct)
    ensures IsIncluded(s) <==> !("$x_exp_" <= s.name)
  {
  }

  /** Experimental structures are skipped. */
  function Included(structs: seq<Struct>): seq<Struct> {
    Filter(IsIncluded, structs)
  }

  function Entry(etors: seq<Etor>, structs: seq<Struct>, i: nat): Etor
    requires etors != [] && i < |structs|
  {
    var name := structs[i].etor;
    Etor(name, if name in Names(etors) then FirstId(etors, name)
               else MaxId(etors) + FreshRank(EtorName, Names(etors), structs, i))
  }

  function Entries(etors: seq<Etor>, structs: seq<Struct>): seq<Etor>
    requires etors != []
  {
    seq(|structs|, i requires 0 <= i < |structs| => Entry(etors, structs, i))
  }

  function NewCount(etors: seq<Etor>, structs: seq<Struct>): nat {
    FreshCount(EtorName, Names(etors), Included(structs))
  }

  /** The list that the pass computes. */
  function Assigned(etors: seq<Etor>, structs: seq<Struct>): seq<Etor>
    requires etors != []
  {
    Sort(Id, Entries(etors, Included(structs)))
  }

  /**
   A run fails without enumerators, which have no maximum to start from, and without structures
   to list, for then the refresh of the meta-data has no largest enumerator to name.
   */
  predicate GoesThrough(etors: seq<Etor>, structs: seq<Struct>) {
    etors != [] && Included(structs) != []
  }

  /** The list in the file after a run: a run that fails leaves it as it was. */
  function Next(etors: seq<Etor>, structs: seq<Struct>): seq<Etor> {
    if GoesThrough(etors, structs) then Assigned(etors, structs) else etors
  }

  // ---------------------------------------------------------------- the pass over the document

  /** The in-memory document, whose list the pass overwrites. */
  class Document {
    var etors: seq<Etor>

    constructor (etors: seq<Etor>)
      ensures this.etors == etors
    {
      this.etors := etors;
    }

    /** When the refresh fails, the list has been overwritten already. */
    method GenerateStructureType(structs: seq<Struct>) returns (r: Option<seq<Etor>>)
      modifies this
      ensures r == if GoesThrough(old(etors), structs) then Some(Assigned(old(etors), structs)) else None
      ensures etors == if old(etors) == [] then [] else Assigned(old(etors), structs)
    {
      if etors == [] {
        return None;
      }
      var out := AssignIds(etors, structs);
      etors := Sort(Id, out);
      SortMultiset(Id, out);
      var refreshed := Enums.RefreshMeta(Ids(etors));
      r := if refreshed then Some(etors) else None;
    }

    /** The loop over the extended structures. */
    static method AssignIds(etors: seq<Etor>, structs: seq<Struct>) returns (out: seq<Etor>)
      requires etors != []
      ensures out == Entries(etors, Included(structs))
    {
      var maxEnum := MaxId(etors);
      out := [];
      for i := 0 to |structs|
        invariant out == Entries(etors, Included(structs[..i]))
        invariant maxEnum == MaxId(etors) + NewCount(etors, structs[..i])
      {
        IncludedAppend(structs, i);
        if !IsIncluded(structs[i]) {
          continue;
        }
        EntriesAppend(etors, Included(structs[..i]), structs[i]);
        var etor := structs[i].etor;
        if etor in Names(etors) {
          out := out + [Etor(etor, FirstId(etors, etor))];
        } else {
          maxEnum := maxEnum + 1;
          out := out + [Etor(etor, maxEnum)];
        }
      }
      assert structs[..|structs|] == structs;
    }
  }

  lemma {:induction false} IncludedAppend(structs: seq<Struct>, i: nat)
    requires i < |structs|
    ensures Included(structs[..i + 1]) ==
            if IsIncluded(structs[i]) then Included(structs[..i]) + [structs[i]] else Included(structs[..i])
  {
    assert structs[..i + 1] == structs[..i] + [structs[i]];
    FilterConcat(IsIncluded, structs[..i], [structs[i]]);
    assert [structs[i]][1..] == [];
  }

  lemma {:induction false} EntriesAppend(etors: seq<Etor>, structs: seq<Struct>, s: Struct)
    requires etors != []
    ensures var count := FreshCount(EtorName, Names(etors), structs);
            && Entries(etors, structs + [s]) ==
               Entries(etors, structs) + [Etor(s.etor, if s.etor in Names(etors) then FirstId(etors, s.etor)
                                                       else MaxId(etors) + count + 1)]
            && FreshCount(EtorName, Names(etors), structs + [s]) ==
               count + (if s.etor in Names(etors) then 0 else 1)
  {
    var all := structs + [s];
    assert all[..|structs| + 1] == all;
    FreshAppend(EtorName, Names(etors), structs, s);
    forall i | 0 <= i < |structs|
      ensures Entry(etors, all, i) == Entry(etors, structs, i)
    {
      assert all[..i + 1] == structs[..i + 1];
    }
  }

  // ---------------------------------------------------------------- what a run does to identifiers

  ghost predicate OneNamePerId(etors: seq<Etor>) {
    forall e, f :: e in etors && f in etors && e.id == f.id ==> e.name == f.name
  }

  ghost predicate InUse(etors: seq<Etor>, id: int) {
    exists e :: e in etors && e.id == id
  }

  lemma {:induction false} EntryIsListed(etors: seq<Etor>, structs: seq<Struct>, e: Etor)
    requires GoesThrough(etors, structs)
    ensures e in Next(etors, structs) <==>
              exists i :: 0 <= i < |Included(structs)| && Entry(etors, Included(structs), i) == e
  {
    var es := Entries(etors, Included(structs));
    SortMembers(Id, es);
    if e in es {
      var i :| 0 <= i < |es| && es[i] == e;
      assert Entry(etors, Included(structs), i) == e;
    }
    if i :| 0 <= i < |Included(structs)| && Entry(etors, Included(structs), i) == e {
      assert es[i] == e;
    }
  }

  /** After a run that goes through, the list is sorted by identifier and has one entry per structure. */
  lemma {:induction false} ListIsSorted(etors: seq<Etor>, structs: seq<Struct>)
    requires GoesThrough(etors, structs)
    ensures var next := Next(etors, structs);
            forall i, j :: 0 <= i < j < |next| ==> next[i].id <= next[j].id
    ensures |Next(etors, structs)| == |Included(structs)|
  {
    var es := Entries(etors, Included(structs));
    SortSorted(Id, es);
    SortMultiset(Id, es);
    forall i, j | 0 <= i < j < |Next(etors, structs)|
      ensures Next(etors, structs)[i].id <= Next(etors, structs)[j].id
    {
      assert Id(Sort(Id, es)[i]) <= Id(Sort(Id, es)[j]);
    }
  }

  /** After a run that goes through, exactly the structures that are not experimental are listed. */
  lemma {:induction false} ListedIff(etors: seq<Etor>, structs: seq<Struct>, name: string)
    requires GoesThrough(etors, structs)
    ensures name in Names(Next(etors, structs)) <==>
              exists s :: s in structs && s.etor == name && !("$x_exp_" <= s.name)
  {
    var included := Included(structs);
    FilterMembers(IsIncluded, structs);
    forall s | s in structs
      ensures IsIncluded(s) <==> !("$x_exp_" <= s.name)
    {
      IncludedIff(s);
    }
    if name in Names(Next(etors, structs)) {
      var e :| e in Next(etors, structs) && e.name == name;
      EntryIsListed(etors, structs, e);
      var i :| 0 <= i < |included| && Entry(etors, included, i) == e;
      assert included[i] in structs;
    }
    if s :| s in structs && s.etor == name && !("$x_exp_" <= s.name) {
      var i :| 0 <= i < |included| && included[i] == s;
      EntryIsListed(etors, structs, Entry(etors, included, i));
    }
  }

  /** Every entry keeps an identifier of its name, or has one of the window above the maximum. */
  lemma {:induction false} EntryId(etors: seq<Etor>, structs: seq<Struct>, i: nat)
    requires etors != [] && i < |structs|
    ensures var e := Entry(etors, structs, i);
            if structs[i].etor in Names(etors) then e in etors
            else MaxId(etors) < e.id <= MaxId(etors) + FreshCount(EtorName, Names(etors), structs)
  {
    if structs[i].etor !in Names(etors) {
      RankInRange(EtorName, Names(etors), structs, i);
    }
  }

  lemma {:induction false} EntriesShareNoId(etors: seq<Etor>, structs: seq<Struct>, i: nat, j: nat)
    requires etors != [] && OneNamePerId(etors) && i < |structs| && j < |structs|
    requires Entry(etors, structs, i).id == Entry(etors, structs, j).id
    ensures structs[i].etor == structs[j].etor
  {
    EntryId(etors, structs, i);
    EntryId(etors, structs, j);
    if structs[i].etor !in Names(etors) && structs[j].etor !in Names(etors) {
      if i < j {
        RanksDiffer(EtorName, Names(etors), structs, i, j);
      } else if j < i {
        RanksDiffer(EtorName, Names(etors), structs, j, i);
      }
    }
  }

  /** Identifiers stay unique in a run. */
  lemma {:induction false} RunKeepsIdsUnique(etors: seq<Etor>, structs: seq<Struct>)
    requires OneNamePerId(etors)
    ensures OneNamePerId(Next(etors, structs))
  {
    var included, next := Included(structs), Next(etors, structs);
    if GoesThrough(etors, structs) {
      forall e, f | e in next && f in next && e.id == f.id
        ensures e.name == f.name
      {
        EntryIsListed(etors, structs, e);
        EntryIsListed(etors, structs, f);
        var i :| 0 <= i < |included| && Entry(etors, included, i) == e;
        var j :| 0 <= j < |included| && Entry(etors, included, j) == f;
        EntriesShareNoId(etors, included, i, j);
      }
    }
  }

  /** A known structure keeps its first identifier, and gets no other. */
  lemma {:induction false} KnownKeepsId(etors: seq<Etor>, structs: seq<Struct>, s: Struct, id: int)
    requires s in structs && IsIncluded(s) && s.etor in Names(etors)
    ensures Etor(s.etor, id) in Next(etors, structs) <==> FirstId(etors, s.etor) == id
  {
    var included := Included(structs);
    FilterMember(IsIncluded, structs, s);
    var i :| 0 <= i < |included| && included[i] == s;
    EntryIsListed(etors, structs, Etor(s.etor, id));
    assert Entry(etors, included, i) == Etor(s.etor, FirstId(etors, s.etor));
  }

  /**
   An identifier that is not in use is issued by the next run exactly when it lies in the window
   of new identifiers right above the largest one in use, whoever had it before.
   */
  lemma {:induction false} IssuedIff(etors: seq<Etor>, structs: seq<Struct>, id: int)
    requires etors != [] && !InUse(etors, id)
    ensures InUse(Next(etors, structs), id) <==>
              MaxId(etors) < id <= MaxId(etors) + NewCount(etors, structs)
  {
    var included, next := Included(structs), Next(etors, structs);
    if GoesThrough(etors, structs) {
      if InUse(next, id) {
        var e :| e in next && e.id == id;
        EntryIsListed(etors, structs, e);
        var i :| 0 <= i < |included| && Entry(etors, included, i) == e;
        EntryId(etors, included, i);
      }
      if MaxId(etors) < id <= MaxId(etors) + NewCount(etors, structs) {
        var i := RankReached(EtorName, Names(etors), included, id - MaxId(etors));
        EntryIsListed(etors, structs, Entry(etors, included, i));
        assert Entry(etors, included, i).id == id;
      }
    }
  }

  /**
   Over two runs an identifier that the first run retired is given out again by the second run
   exactly when it is above every identifier that survived, by no more than the number of new
   structures.
   */
  lemma {:induction false} RetiredIdReissuedIff(etors: seq<Etor>, first: seq<Struct>, second: seq<Struct>, id: int)
    requires InUse(etors, id) && !InUse(Next(etors, first), id)
    ensures var middle := Next(etors, first);
            && middle != []
            && (InUse(Next(middle, second), id) <==> MaxId(middle) < id <= MaxId(middle) + NewCount(middle, second))
  {
    SortMultiset(Id, Entries(etors, Included(first)));
    IssuedIff(Next(etors, first), second, id);
  }

  lemma {:induction false} OneStruct(etors: seq<Etor>, s: Struct)
    requires etors != [] && IsIncluded(s)
    ensures Next(etors, [s]) == [Entry(etors, [s], 0)]
  {
    IncludedAppend([s], 0);
    assert [s][..1] == [s] && [s][..0] == [];
    assert Included([]) == [];
    assert Included([s]) == [s];
    var es := Entries(etors, [s]);
    assert es == [Entry(etors, [s], 0)];
    assert es[1..] == [];
    assert Sort(Id, es[1..]) == [];
    assert Sort(Id, es) == Insert(Id, es[0], []) == [es[0]];
  }

  /** It happens: with A = 0 and B = 1, dropping B and then replacing A by C gives B's identifier to C. */
  lemma {:induction false} RetiredIdReissued()
    ensures var middle := Next([Etor("A", 0), Etor("B", 1)], [Struct("$x_a_t", "A")]);
            !InUse(middle, 1) && Etor("C", 1) in Next(middle, [Struct("$x_c_t", "C")])
  {
    var etors := [Etor("A", 0), Etor("B", 1)];
    OneStruct(etors, Struct("$x_a_t", "A"));
    assert etors[0] in etors;
    var middle := Next(etors, [Struct("$x_a_t", "A")]);
    assert etors[0].name == "A" && FirstId(etors, "A") == 0;
    assert Entry(etors, [Struct("$x_a_t", "A")], 0) == Etor("A", 0);
    assert middle == [Etor("A", 0)];
    var c := Struct("$x_c_t", "C");
    OneStruct(middle, c);
    RankInRange(EtorName, Names(middle), [c], 0);
    assert [c][..0] == [];
  }
}
