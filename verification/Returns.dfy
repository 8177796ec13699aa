/**
 The return conditions of a function: which conditions its parameters give rise to, how they are
 accumulated per result code, and the checks that are later extracted from them.
 */
module Returns {
  import opened Prelude

  /** One dictionary of the list, which always has a single key. */
  datatype Entry = Entry(code: string, conditions: seq<string>)

  /** One call of the appending helper; `None` stands for no condition. */
  datatype Call = Call(code: string, condition: Option<string>) {

    /** It has a condition to record; an empty one counts as none. */
    predicate Given() {
      condition.Some? && condition.value != ""
    }
  }

  const DEFAULTS := [
    Entry("$X_RESULT_SUCCESS", []),
    Entry("$X_RESULT_ERROR_UNINITIALIZED", []),
    Entry("$X_RESULT_ERROR_DEVICE_LOST", []),
    Entry("$X_RESULT_ERROR_ADAPTER_SPECIFIC", [])
  ]

  // ---------------------------------------------------------------- accumulation

  /** The first entry that has conditions for the code, or the length of the list. */
  function Find(rets: seq<Entry>, code: string): (i: nat)
    ensures i <= |rets|
    ensures i < |rets| ==> rets[i].code == code && rets[i].conditions != []
    ensures forall j :: 0 <= j < i ==> !(rets[j].code == code && rets[j].conditions != [])
  {
    if rets == [] || (rets[0].code == code && rets[0].conditions != []) then 0
    else 1 + Find(rets[1..], code)
  }

  function Append(rets: seq<Entry>, call: Call): seq<Entry> {
    var i := Find(rets, call.code);
    var grown := if i == |rets| then rets + [Entry(call.code, [])] else rets;
    if call.Given() && call.condition.value !in grown[i].conditions
    then grown[i := Entry(call.code, grown[i].conditions + [call.condition.value])]
    else grown
  }

  function Accumulate(calls: seq<Call>): seq<Entry> {
    if calls == [] then DEFAULTS else Append(Accumulate(calls[..|calls| - 1]), calls[|calls| - 1])
  }

  /** The loops that append, one call after the other. */
  method AppendAll(rets: seq<Entry>, ghost done: seq<Call>, calls: seq<Call>) returns (more: seq<Entry>)
    requires rets == Accumulate(done)
    ensures more == Accumulate(done + calls)
  {
    more := rets;
    assert done + calls[..0] == done;
    for n := 0 to |calls|
      invariant more == Accumulate(done + calls[..n])
    {
      AccumulateStep(done, calls, n);
      more := AppendOne(more, calls[n]);
    }
    assert calls[..|calls|] == calls;
  }

  lemma {:induction false} AccumulateStep(done: seq<Call>, calls: seq<Call>, n: nat)
    requires n < |calls|
    ensures Accumulate(done + calls[..n + 1]) == Append(Accumulate(done + calls[..n]), calls[n])
  {
    var more := done + calls[..n + 1];
    assert more[..|more| - 1] == done + calls[..n];
  }

  /** The appending helper. */
  method AppendOne(rets: seq<Entry>, call: Call) returns (more: seq<Entry>)
    ensures more == Append(rets, call)
  {
    more := rets;
    var i := FindIndex(rets, call.code);
    if i == |rets| {
      more := more + [Entry(call.code, [])];
    }
    if call.Given() && call.condition.value !in more[i].conditions {
      more := more[i := Entry(call.code, more[i].conditions + [call.condition.value])];
    }
  }

  /** The search of the appending helper. */
  method FindIndex(rets: seq<Entry>, code: string) returns (i: nat)
    ensures i == Find(rets, code)
  {
    i := 0;
    while i < |rets| && !(rets[i].code == code && rets[i].conditions != [])
      invariant 0 <= i <= |rets|
      invariant forall j :: 0 <= j < i ==> !(rets[j].code == code && rets[j].conditions != [])
    {
      i := i + 1;
    }
  }

  /** At most one entry per code has conditions. */
  predicate OneEntryPerCode(rets: seq<Entry>) {
    forall i, j :: 0 <= i < j < |rets| && rets[i].code == rets[j].code ==>
      rets[i].conditions == [] || rets[j].conditions == []
  }

  /** The conditions of the entry that a lookup by code finds. */
  function Lookup(rets: seq<Entry>, code: string): seq<string> {
    var i := Find(rets, code);
    if i < |rets| then rets[i].conditions else []
  }

  /** The conditions that the calls give for a code, in order. */
  function ConditionsOf(calls: seq<Call>, code: string): seq<string> {
    if calls == [] then []
    else
      var last := calls[|calls| - 1];
      ConditionsOf(calls[..|calls| - 1], code)
      + (if last.code == code && last.Given() then [last.condition.value] else [])
  }

  /** Every element once, in the order of first occurrence. */
  function FirstOccurrences(xs: seq<string>): (ys: seq<string>)
    ensures forall x :: x in ys <==> x in xs
    ensures Distinct(ys)
  {
    if xs == [] then []
    else
      var front, last := FirstOccurrences(xs[..|xs| - 1]), xs[|xs| - 1];
      assert xs == xs[..|xs| - 1] + [last];
      if last in front then front else front + [last]
  }

  lemma FindUnique(rets: seq<Entry>, code: string, i: nat)
    requires OneEntryPerCode(rets) && i < |rets| && rets[i].code == code && rets[i].conditions != []
    ensures Find(rets, code) == i
  {
  }

  lemma FindNone(rets: seq<Entry>, code: string)
    requires forall j :: 0 <= j < |rets| ==> !(rets[j].code == code && rets[j].conditions != [])
    ensures Find(rets, code) == |rets|
  {
  }

  lemma AppendKeepsOneEntry(rets: seq<Entry>, call: Call)
    requires OneEntryPerCode(rets)
    ensures OneEntryPerCode(Append(rets, call))
  {
  }

  /** An append changes the conditions of its own code only, by at most its own condition. */
  lemma {:induction false} AppendLookup(rets: seq<Entry>, call: Call, code: string)
    requires OneEntryPerCode(rets)
    ensures var old', c := Lookup(rets, code), call.condition;
            Lookup(Append(rets, call), code) ==
            if call.code == code && call.Given() && c.value !in old' then old' + [c.value] else old'
  {
    var next := Append(rets, call);
    var i := Find(rets, code);
    AppendKeepsOneEntry(rets, call);
    if call.code == code && call.Given() {
      FindUnique(next, code, i);
    } else if i < |rets| {
      FindUnique(next, code, i);
    } else {
      FindNone(next, code);
    }
  }

  /** The accumulated conditions of a code are exactly those of the calls, each once, none lost. */
  lemma {:induction false} AccumulatedConditions(calls: seq<Call>, code: string)
    ensures OneEntryPerCode(Accumulate(calls))
    ensures Lookup(Accumulate(calls), code) == FirstOccurrences(ConditionsOf(calls, code))
  {
    if calls == [] {
      FindNone(DEFAULTS, code);
    } else {
      var front, last := calls[..|calls| - 1], calls[|calls| - 1];
      AccumulatedConditions(front, code);
      AppendKeepsOneEntry(Accumulate(front), last);
      AppendLookup(Accumulate(front), last, code);
      FirstOccurrencesStep(ConditionsOf(front, code), last, code);
    }
  }

  lemma {:induction false} FirstOccurrencesStep(xs: seq<string>, call: Call, code: string)
    ensures FirstOccurrences(xs + (if call.code == code && call.Given() then [call.condition.value] else [])) ==
            if call.code == code && call.Given() && call.condition.value !in FirstOccurrences(xs)
            then FirstOccurrences(xs) + [call.condition.value] else FirstOccurrences(xs)
  {
    if call.code == code && call.Given() {
      assert (xs + [call.condition.value])[..|xs|] == xs;
    } else {
      assert xs + [] == xs;
    }
  }

  // ---------------------------------------------------------------- the whole list, in order

  predicate HasConditions(e: Entry) {
    e.conditions != []
  }

  /** The codes of the calls that give a condition. */
  function GivenCodes(calls: seq<Call>): seq<string> {
    if calls == [] then []
    else
      var last := calls[|calls| - 1];
      GivenCodes(calls[..|calls| - 1]) + (if last.Given() then [last.code] else [])
  }

  function GroupOf(calls: seq<Call>, code: string): Entry {
    Entry(code, FirstOccurrences(ConditionsOf(calls, code)))
  }

  function Groups(calls: seq<Call>, codes: seq<string>): (groups: seq<Entry>)
    ensures |groups| == |codes|
    ensures forall k :: 0 <= k < |codes| ==> groups[k] == GroupOf(calls, codes[k])
  {
    seq(|codes|, k requires 0 <= k < |codes| => GroupOf(calls, codes[k]))
  }

  /** One entry per code, in the order in which the codes are first given a condition. */
  function Grouped(calls: seq<Call>): seq<Entry> {
    Groups(calls, FirstOccurrences(GivenCodes(calls)))
  }

  /** A list with one entry changed or one entry added, as far as entries with conditions go. */
  lemma {:induction false} FilterUpdate(rets: seq<Entry>, i: nat, e: Entry) returns (n: nat)
    requires i < |rets| && HasConditions(rets[i]) && HasConditions(e)
    ensures var spine := Filter(HasConditions, rets);
            n < |spine| && spine[n] == rets[i] && Filter(HasConditions, rets[i := e]) == spine[n := e]
  {
    var front, back := rets[..i], rets[i + 1..];
    assert rets == front + [rets[i]] + back && rets[i := e] == front + [e] + back;
    FilterMiddle(HasConditions, front, rets[i], back);
    FilterMiddle(HasConditions, front, e, back);
    n := |Filter(HasConditions, front)|;
  }

  lemma {:induction false} FilterAppend(rets: seq<Entry>, e: Entry)
    ensures Filter(HasConditions, rets + [e]) ==
            Filter(HasConditions, rets) + (if HasConditions(e) then [e] else [])
  {
    FilterConcat(HasConditions, rets, [e]);
    FilterOne(HasConditions, e);
  }

  lemma {:induction false} GivenCodesHave(calls: seq<Call>, code: string)
    ensures code in GivenCodes(calls) <==> ConditionsOf(calls, code) != []
  {
    if calls != [] {
      GivenCodesHave(calls[..|calls| - 1], code);
    }
  }

  /** A call without a condition changes no group. */
  lemma {:induction false} GroupedSame(front: seq<Call>, call: Call)
    requires !call.Given()
    ensures Grouped(front + [call]) == Grouped(front)
  {
    var calls := front + [call];
    assert calls[..|front|] == front;
    assert GivenCodes(calls) == GivenCodes(front);
    forall code
      ensures ConditionsOf(calls, code) == ConditionsOf(front, code)
    {
      assert ConditionsOf(front, code) + [] == ConditionsOf(front, code);
    }
  }

  /** A call with a condition changes the group of its code, or adds it. */
  lemma {:induction false} GroupedMore(front: seq<Call>, call: Call)
    requires call.Given()
    ensures var codes := FirstOccurrences(GivenCodes(front));
            Grouped(front + [call]) ==
            Groups(front + [call], if call.code in codes then codes else codes + [call.code])
    ensures forall code :: code != call.code ==> GroupOf(front + [call], code) == GroupOf(front, code)
    ensures GroupOf(front + [call], call.code).conditions ==
            var old' := FirstOccurrences(ConditionsOf(front, call.code));
            if call.condition.value in old' then old' else old' + [call.condition.value]
  {
    var calls := front + [call];
    assert calls[..|front|] == front;
    var codes := GivenCodes(front);
    assert (codes + [call.code])[..|codes|] == codes;
    forall code | code != call.code
      ensures ConditionsOf(calls, code) == ConditionsOf(front, code)
    {
      assert ConditionsOf(front, code) + [] == ConditionsOf(front, code);
    }
    FirstOccurrencesStep(ConditionsOf(front, call.code), call, call.code);
  }

  /** The entry of the code, as the calls make it. */
  lemma {:induction false} EntryIsGroup(calls: seq<Call>, code: string)
    ensures var rets := Accumulate(calls);
            var i := Find(rets, code);
            if code in GivenCodes(calls) then i < |rets| && rets[i] == GroupOf(calls, code) else i == |rets|
  {
    AccumulatedConditions(calls, code);
    GivenCodesHave(calls, code);
    var xs := ConditionsOf(calls, code);
    if xs != [] {
      assert xs[0] in FirstOccurrences(xs);
    }
  }

  /**
   The list of entries with conditions: one per code, in the order in which the codes are first
   given a condition, each with its conditions in the order of first occurrence.
   */
  lemma {:induction false} AccumulatedInOrder(calls: seq<Call>)
    ensures Filter(HasConditions, Accumulate(calls)) == Grouped(calls)
  {
    if calls == [] {
      FilterNone(HasConditions, DEFAULTS);
    } else {
      var front, last := calls[..|calls| - 1], calls[|calls| - 1];
      assert calls == front + [last];
      AccumulatedInOrder(front);
      EntryIsGroup(front, last.code);
      if last.Given() {
        AppendInOrder(front, last);
      } else {
        GroupedSame(front, last);
        FilterAppend(Accumulate(front), Entry(last.code, []));
      }
    }
  }

  lemma {:induction false} AppendInOrder(front: seq<Call>, last: Call)
    requires last.Given() && Filter(HasConditions, Accumulate(front)) == Grouped(front)
    ensures Filter(HasConditions, Append(Accumulate(front), last)) == Grouped(front + [last])
  {
    var rets, codes := Accumulate(front), FirstOccurrences(GivenCodes(front));
    var i := Find(rets, last.code);
    var e := GroupOf(front + [last], last.code);
    EntryIsGroup(front, last.code);
    GroupedMore(front, last);
    if last.code in codes {
      AppendToEntry(rets, last, e);
      var n := FilterUpdate(rets, i, e);
      GroupsUpdate(front, last, codes, n);
    } else {
      GivenCodesHave(front, last.code);
      assert FirstOccurrences([]) == [];
      AppendNewEntry(rets, last, e);
      FilterAppend(rets, e);
      GroupsExtend(front, last, codes);
    }
  }

  lemma {:induction false} AppendToEntry(rets: seq<Entry>, call: Call, e: Entry)
    requires call.Given() && Find(rets, call.code) < |rets| && e.code == call.code
    requires var old' := rets[Find(rets, call.code)].conditions;
             e.conditions == if call.condition.value in old' then old' else old' + [call.condition.value]
    ensures Append(rets, call) == rets[Find(rets, call.code) := e]
  {
    var i := Find(rets, call.code);
    assert rets[i := rets[i]] == rets;
  }

  lemma {:induction false} AppendNewEntry(rets: seq<Entry>, call: Call, e: Entry)
    requires call.Given() && Find(rets, call.code) == |rets| && e == Entry(call.code, [call.condition.value])
    ensures Append(rets, call) == rets + [e]
  {
    assert [] + [call.condition.value] == [call.condition.value];
    assert (rets + [Entry(call.code, [])])[|rets| := e] == rets + [e];
  }

  lemma {:induction false} GroupsUpdate(front: seq<Call>, last: Call, codes: seq<string>, n: nat)
    requires Distinct(codes) && n < |codes| && codes[n] == last.code
    requires forall code :: code != last.code ==> GroupOf(front + [last], code) == GroupOf(front, code)
    ensures Groups(front + [last], codes) == Groups(front, codes)[n := GroupOf(front + [last], last.code)]
  {
  }

  lemma {:induction false} GroupsExtend(front: seq<Call>, last: Call, codes: seq<string>)
    requires last.code !in codes
    requires forall code :: code != last.code ==> GroupOf(front + [last], code) == GroupOf(front, code)
    ensures Groups(front + [last], codes + [last.code]) ==
            Groups(front, codes) + [GroupOf(front + [last], last.code)]
  {
  }

  // ---------------------------------------------------------------- conditions of the parameters

  const NULL_POINTER := "$X_RESULT_ERROR_INVALID_NULL_POINTER"
  const NULL_HANDLE := "$X_RESULT_ERROR_INVALID_NULL_HANDLE"
  const UNSUPPORTED_VERSION := "$X_RESULT_ERROR_UNSUPPORTED_VERSION"
  const INVALID_ENUMERATION := "$X_RESULT_ERROR_INVALID_ENUMERATION"

  /** What is known about a type; `typename` is its name without const and pointers. */
  datatype Type = Type(
    typename: string, pointer: bool, fixedArray: bool, functionPointer: bool,
    handle: bool, ipcHandle: bool, nativeHandle: bool, flags: bool, descriptor: bool, properties: bool)

  /** A parameter of a function or a member of a structure. */
  datatype Param = Param(name: string, ty: Type, nocheck: bool, optional: bool)

  datatype EnumMeta = EnumMeta(max: string, hasMask: bool)

  /** The meta-data; `maskName` and `structureType` rewrite the name of a type. */
  datatype Meta = Meta(
    enums: map<string, EnumMeta>, structs: map<string, seq<Param>>,
    maskName: string -> string, structureType: string -> string)

  /** A place that is checked: a parameter or a member, and the parameter it is reached through. */
  datatype Site = Site(item: Param, place: Param, accessor: string)

  /** An entry for the returns in the specification: a code alone, or with conditions. */
  datatype UserReturn = Alone(code: string) | With(code: string, conditions: seq<string>)

  predicate IsPointerLike(ty: Type) {
    ty.pointer || ty.fixedArray || ty.functionPointer
  }

  function NullCondition(accessor: string): string {
    "`NULL == " + accessor + "`"
  }

  function NullChecks(s: Site): seq<Call> {
    if IsPointerLike(s.place.ty) then [Call(NULL_POINTER, Some(NullCondition(s.accessor)))]
    else if s.place.ty.handle && !s.item.ty.ipcHandle && !s.item.ty.nativeHandle
    then [Call(NULL_HANDLE, Some(NullCondition(s.accessor)))]
    else []
  }

  predicate IsStype(name: string) {
    "stype" <= name
  }

  /** The check of an enumeration is guarded by a test for null if the parameter is optional. */
  function EnumCheck(meta: Meta, s: Site): Call
    requires s.place.ty.typename in meta.enums
  {
    var typename := s.place.ty.typename;
    var start := if s.item.optional then "`NULL != " + s.item.name + " && " else "`";
    if IsStype(s.place.name) then
      Call(UNSUPPORTED_VERSION, Some(start + meta.structureType(typename) + " != " + s.accessor + "`"))
    else if s.place.ty.flags && meta.enums[typename].hasMask then
      Call(INVALID_ENUMERATION, Some(start + meta.maskName(typename) + " & " + s.accessor + "`"))
    else
      Call(INVALID_ENUMERATION, Some(start + meta.enums[typename].max + " < " + s.accessor + "`"))
  }

  function SiteCalls(meta: Meta, s: Site): seq<Call> {
    (if s.place.optional then [] else NullChecks(s))
    + (if s.place.ty.typename in meta.enums && !s.place.ty.pointer then [EnumCheck(meta, s)] else [])
  }

  predicate IsChecked(p: Param) {
    !p.nocheck
  }

  /** The members of a descriptor or of properties are checked too; `None` is an unknown structure. */
  function MembersOf(meta: Meta, p: Param): Option<seq<Param>> {
    if !p.ty.descriptor && !p.ty.properties then Some([])
    else if p.ty.typename in meta.structs then Some(Filter(IsChecked, meta.structs[p.ty.typename]))
    else None
  }

  function MemberSites(item: Param, members: seq<Param>): seq<Site> {
    seq(|members|, k requires 0 <= k < |members| => Site(item, members[k], item.name + "->" + members[k].name))
  }

  function SitesOf(item: Param, members: seq<Param>): seq<Site> {
    [Site(item, item, item.name)] + MemberSites(item, members)
  }

  /** All sites of the parameters, in the order in which they are visited. */
  function Sites(meta: Meta, params: seq<Param>): Option<seq<Site>> {
    if params == [] then Some([])
    else
      var last := params[|params| - 1];
      match Sites(meta, params[..|params| - 1])
      case None => None
      case Some(front) =>
        if last.nocheck then Some(front)
        else
          match MembersOf(meta, last)
          case None => None
          case Some(members) => Some(front + SitesOf(last, members))
  }

  function CallsOfSites(meta: Meta, sites: seq<Site>): seq<Call> {
    if sites == [] then [] else CallsOfSites(meta, sites[..|sites| - 1]) + SiteCalls(meta, sites[|sites| - 1])
  }

  function UserCallsOf(r: UserReturn): seq<Call> {
    match r
    case Alone(code) => [Call(code, None)]
    case With(code, conditions) =>
      seq(|conditions|, k requires 0 <= k < |conditions| => Call(code, Some(conditions[k])))
  }

  function UserCalls(user: seq<UserReturn>): seq<Call> {
    if user == [] then [] else UserCalls(user[..|user| - 1]) + UserCallsOf(user[|user| - 1])
  }

  /** Everything that is appended for a function, in order. */
  function FunctionCalls(meta: Meta, params: seq<Param>, user: seq<UserReturn>): Option<seq<Call>> {
    match Sites(meta, params)
    case None => None
    case Some(sites) => Some(CallsOfSites(meta, sites) + UserCalls(user))
  }

  lemma AppendTwice(xs: seq<Call>, ys: seq<Call>, zs: seq<Call>)
    ensures xs + ys + zs == xs + (ys + zs)
  {
  }

  /** The loops over the parameters and the user's entries; `None` is an unknown structure. */
  method GenerateReturns(meta: Meta, params: seq<Param>, user: seq<UserReturn>) returns (r: Option<seq<Entry>>)
    ensures match FunctionCalls(meta, params, user)
            case None => r == None
            case Some(calls) => r == Some(Accumulate(calls))
  {
    var rets := DEFAULTS;
    ghost var sites: seq<Site> := [];
    for n := 0 to |params|
      invariant Sites(meta, params[..n]) == Some(sites)
      invariant rets == Accumulate(CallsOfSites(meta, sites))
    {
      assert params[..n + 1][..n] == params[..n];
      var item := params[n];
      if item.nocheck {
        continue;
      }
      var members := MembersOf(meta, item);
      if members.None? {
        UnknownForGood(meta, params, n + 1);
        return None;
      }
      rets := CheckSites(meta, sites, SitesOf(item, members.value), rets);
      sites := sites + SitesOf(item, members.value);
    }
    assert params[..|params|] == params;
    ghost var done := CallsOfSites(meta, sites);
    assert done + UserCalls([]) == done;
    for n := 0 to |user|
      invariant rets == Accumulate(done + UserCalls(user[..n]))
    {
      assert user[..n + 1][..n] == user[..n];
      rets := AppendAll(rets, done + UserCalls(user[..n]), UserCallsOf(user[n]));
      AppendTwice(done, UserCalls(user[..n]), UserCallsOf(user[n]));
    }
    assert user[..|user|] == user;
    r := Some(rets);
  }

  /** The checks of a parameter and of its members. */
  method CheckSites(meta: Meta, ghost done: seq<Site>, sites: seq<Site>, rets: seq<Entry>) returns (more: seq<Entry>)
    requires rets == Accumulate(CallsOfSites(meta, done))
    ensures more == Accumulate(CallsOfSites(meta, done + sites))
  {
    more := rets;
    assert done + sites[..0] == done;
    for k := 0 to |sites|
      invariant more == Accumulate(CallsOfSites(meta, done + sites[..k]))
    {
      CallsOfSitesStep(meta, done, sites, k);
      more := AppendAll(more, CallsOfSites(meta, done + sites[..k]), SiteCalls(meta, sites[k]));
    }
    assert sites[..|sites|] == sites;
  }

  lemma {:induction false} CallsOfSitesStep(meta: Meta, done: seq<Site>, sites: seq<Site>, k: nat)
    requires k < |sites|
    ensures CallsOfSites(meta, done + sites[..k + 1]) ==
            CallsOfSites(meta, done + sites[..k]) + SiteCalls(meta, sites[k])
  {
    var more := done + sites[..k + 1];
    assert more[..|more| - 1] == done + sites[..k];
  }

  lemma {:induction false} UnknownForGood(meta: Meta, params: seq<Param>, n: nat)
    requires n <= |params| && Sites(meta, params[..n]).None?
    ensures Sites(meta, params).None?
    decreases |params|
  {
    if n < |params| {
      assert params[..|params| - 1][..n] == params[..n];
      UnknownForGood(meta, params[..|params| - 1], n);
    } else {
      assert params[..n] == params;
    }
  }

  lemma {:induction false} SiteCallsMembers(meta: Meta, sites: seq<Site>, call: Call)
    ensures call in CallsOfSites(meta, sites) <==> exists s :: s in sites && call in SiteCalls(meta, s)
  {
    if sites != [] {
      var front, last := sites[..|sites| - 1], sites[|sites| - 1];
      SiteCallsMembers(meta, front, call);
      assert sites == front + [last];
      assert forall s :: s in sites <==> s in front || s == last;
    }
  }

  /** A pointer, an array or a function pointer that is not optional. */
  predicate NeedsPointer(s: Site) {
    !s.place.optional && (s.place.ty.pointer || s.place.ty.fixedArray || s.place.ty.functionPointer)
  }

  /** A handle that is not optional and is not passed through an IPC or native handle. */
  predicate NeedsHandle(s: Site) {
    && !s.place.optional && s.place.ty.handle
    && !s.place.ty.pointer && !s.place.ty.fixedArray && !s.place.ty.functionPointer
    && !s.item.ty.ipcHandle && !s.item.ty.nativeHandle
  }

  predicate IsEnumSite(meta: Meta, s: Site) {
    s.place.ty.typename in meta.enums && !s.place.ty.pointer
  }

  /** The start of an enumeration check: it is skipped when an optional parameter is null. */
  function EnumStart(s: Site): string {
    if s.item.optional then "`NULL != " + s.item.name + " && " else "`"
  }

  lemma {:induction false} SiteCallIff(meta: Meta, s: Site, call: Call)
    ensures call in SiteCalls(meta, s) <==>
              var a, typename := s.accessor, s.place.ty.typename;
              || (NeedsPointer(s) && call == Call("$X_RESULT_ERROR_INVALID_NULL_POINTER", Some("`NULL == " + a + "`")))
              || (NeedsHandle(s) && call == Call("$X_RESULT_ERROR_INVALID_NULL_HANDLE", Some("`NULL == " + a + "`")))
              || (IsEnumSite(meta, s) && "stype" <= s.place.name
                  && call == Call("$X_RESULT_ERROR_UNSUPPORTED_VERSION",
                                  Some(EnumStart(s) + meta.structureType(typename) + " != " + a + "`")))
              || (IsEnumSite(meta, s) && !("stype" <= s.place.name)
                  && s.place.ty.flags && meta.enums[typename].hasMask
                  && call == Call("$X_RESULT_ERROR_INVALID_ENUMERATION",
                                  Some(EnumStart(s) + meta.maskName(typename) + " & " + a + "`")))
              || (IsEnumSite(meta, s) && !("stype" <= s.place.name)
                  && !(s.place.ty.flags && meta.enums[typename].hasMask)
                  && call == Call("$X_RESULT_ERROR_INVALID_ENUMERATION",
                                  Some(EnumStart(s) + meta.enums[typename].max + " < " + a + "`")))
  {
  }
  /**
   The order of the conditions: those of the parameters come before those of the specification, those
   of earlier parameters before those of later ones, a parameter before its members, and a check for
   null before the check of an enumeration.
   */
  lemma {:induction false} VisitingOrder(meta: Meta, params: seq<Param>, user: seq<UserReturn>, k: nat, l: nat)
    requires Sites(meta, params).Some? && k <= |params| && l <= |user|
    ensures Sites(meta, params[..k]).Some?
    ensures CallsOfSites(meta, Sites(meta, params[..k]).value) <= FunctionCalls(meta, params, user).value
    ensures CallsOfSites(meta, Sites(meta, params).value) + UserCalls(user[..l])
            <= FunctionCalls(meta, params, user).value
  {
    SitesPrefix(meta, params, k);
    CallsPrefix(meta, Sites(meta, params[..k]).value, Sites(meta, params).value);
    UserPrefix(user, l);
  }

  lemma {:induction false} SitesPrefix(meta: Meta, params: seq<Param>, k: nat)
    requires Sites(meta, params).Some? && k <= |params|
    ensures Sites(meta, params[..k]).Some?
    ensures Sites(meta, params[..k]).value <= Sites(meta, params).value
    decreases |params|
  {
    if k < |params| {
      var front := params[..|params| - 1];
      assert front[..k] == params[..k];
      SitesPrefix(meta, front, k);
    } else {
      assert params[..k] == params;
    }
  }

  lemma {:induction false} CallsPrefix(meta: Meta, xs: seq<Site>, ys: seq<Site>)
    requires xs <= ys
    ensures CallsOfSites(meta, xs) <= CallsOfSites(meta, ys)
    decreases |ys|
  {
    if |xs| < |ys| {
      assert xs <= ys[..|ys| - 1];
      CallsPrefix(meta, xs, ys[..|ys| - 1]);
    } else {
      assert xs == ys;
    }
  }

  lemma {:induction false} UserPrefix(user: seq<UserReturn>, l: nat)
    requires l <= |user|
    ensures UserCalls(user[..l]) <= UserCalls(user)
    decreases |user|
  {
    if l < |user| {
      assert user[..|user| - 1][..l] == user[..l];
      UserPrefix(user[..|user| - 1], l);
    } else {
      assert user[..l] == user;
    }
  }

  /** A parameter comes before its members, and a check for null before the check of an enumeration. */
  lemma {:induction false} OrderAtParameter(meta: Meta, p: Param, s: Site)
    requires !p.nocheck && Sites(meta, [p]).Some?
    ensures Sites(meta, [p]).value[..1] == [Site(p, p, p.name)]
    ensures (NeedsPointer(s) || NeedsHandle(s)) && IsEnumSite(meta, s) ==>
              && |SiteCalls(meta, s)| == 2
              && SiteCalls(meta, s)[0].condition == Some("`NULL == " + s.accessor + "`")
              && SiteCalls(meta, s)[0].code == if NeedsPointer(s) then "$X_RESULT_ERROR_INVALID_NULL_POINTER"
                                               else "$X_RESULT_ERROR_INVALID_NULL_HANDLE"
  {
    assert [p][..0] == [] && Sites(meta, [p][..0]) == Some([]);
  }

  lemma {:induction false} NullConditionInjective(a: string, b: string)
    requires "`NULL == " + a + "`" == "`NULL == " + b + "`"
    ensures a == b
  {
    var c, d := "`NULL == " + a + "`", "`NULL == " + b + "`";
    assert a == c[9..|c| - 1] && b == d[9..|d| - 1];
  }

  lemma {:induction false} NullSites(meta: Meta, s: Site, a: string)
    ensures Call("$X_RESULT_ERROR_INVALID_NULL_POINTER", Some("`NULL == " + a + "`")) in SiteCalls(meta, s) <==>
              NeedsPointer(s) && s.accessor == a
    ensures Call("$X_RESULT_ERROR_INVALID_NULL_HANDLE", Some("`NULL == " + a + "`")) in SiteCalls(meta, s) <==>
              NeedsHandle(s) && s.accessor == a
  {
    var pointer, handle := "$X_RESULT_ERROR_INVALID_NULL_POINTER", "$X_RESULT_ERROR_INVALID_NULL_HANDLE";
    var version, enumeration := "$X_RESULT_ERROR_UNSUPPORTED_VERSION", "$X_RESULT_ERROR_INVALID_ENUMERATION";
    assert |pointer| == 36 && |handle| == |version| == |enumeration| == 35;
    assert handle[16] == 'I' && version[16] == 'U' && handle[24] == 'N' && enumeration[24] == 'E';
    SiteCallIff(meta, s, Call(pointer, Some("`NULL == " + a + "`")));
    SiteCallIff(meta, s, Call(handle, Some("`NULL == " + a + "`")));
    if "`NULL == " + a + "`" == "`NULL == " + s.accessor + "`" {
      NullConditionInjective(a, s.accessor);
    }
  }

  /**
   A place is checked for a null pointer if and only if it is a pointer, an array or a function
   pointer that is not optional, or the specification says so itself.
   */
  lemma {:induction false} NullPointerCheckIff(meta: Meta, params: seq<Param>, user: seq<UserReturn>, a: string)
    requires Sites(meta, params).Some?
    ensures var sites, calls := Sites(meta, params).value, FunctionCalls(meta, params, user).value;
            var check := Call("$X_RESULT_ERROR_INVALID_NULL_POINTER", Some("`NULL == " + a + "`"));
            check in calls <==>
              check in UserCalls(user) || exists s :: s in sites && NeedsPointer(s) && s.accessor == a
  {
    var sites := Sites(meta, params).value;
    SiteCallsMembers(meta, sites, Call("$X_RESULT_ERROR_INVALID_NULL_POINTER", Some("`NULL == " + a + "`")));
    forall s | s in sites
      ensures Call("$X_RESULT_ERROR_INVALID_NULL_POINTER", Some("`NULL == " + a + "`")) in SiteCalls(meta, s) <==>
                NeedsPointer(s) && s.accessor == a
    {
      NullSites(meta, s, a);
    }
  }

  /** A place is checked for a null handle if and only if it is a handle that needs it, or the specification says so. */
  lemma {:induction false} NullHandleCheckIff(meta: Meta, params: seq<Param>, user: seq<UserReturn>, a: string)
    requires Sites(meta, params).Some?
    ensures var sites, calls := Sites(meta, params).value, FunctionCalls(meta, params, user).value;
            var check := Call("$X_RESULT_ERROR_INVALID_NULL_HANDLE", Some("`NULL == " + a + "`"));
            check in calls <==>
              check in UserCalls(user) || exists s :: s in sites && NeedsHandle(s) && s.accessor == a
  {
    var sites := Sites(meta, params).value;
    SiteCallsMembers(meta, sites, Call("$X_RESULT_ERROR_INVALID_NULL_HANDLE", Some("`NULL == " + a + "`")));
    forall s | s in sites
      ensures Call("$X_RESULT_ERROR_INVALID_NULL_HANDLE", Some("`NULL == " + a + "`")) in SiteCalls(meta, s) <==>
                NeedsHandle(s) && s.accessor == a
    {
      NullSites(meta, s, a);
    }
  }

  /** The text of the check of an enumeration, by kind. */
  function EnumText(meta: Meta, s: Site): string
    requires IsEnumSite(meta, s)
  {
    var typename := s.place.ty.typename;
    EnumStart(s)
    + (if "stype" <= s.place.name then meta.structureType(typename) + " != "
       else if s.place.ty.flags && meta.enums[typename].hasMask then meta.maskName(typename) + " & "
       else meta.enums[typename].max + " < ")
    + s.accessor + "`"
  }

  lemma {:induction false} EnumSites(meta: Meta, s: Site, text: string)
    ensures Call("$X_RESULT_ERROR_UNSUPPORTED_VERSION", Some(text)) in SiteCalls(meta, s) <==>
              IsEnumSite(meta, s) && "stype" <= s.place.name && text == EnumText(meta, s)
    ensures Call("$X_RESULT_ERROR_INVALID_ENUMERATION", Some(text)) in SiteCalls(meta, s) <==>
              IsEnumSite(meta, s) && !("stype" <= s.place.name) && text == EnumText(meta, s)
  {
    var pointer, handle := "$X_RESULT_ERROR_INVALID_NULL_POINTER", "$X_RESULT_ERROR_INVALID_NULL_HANDLE";
    var version, enumeration := "$X_RESULT_ERROR_UNSUPPORTED_VERSION", "$X_RESULT_ERROR_INVALID_ENUMERATION";
    assert |pointer| == 36 && |handle| == |version| == |enumeration| == 35;
    assert handle[16] == enumeration[16] == 'I' && version[16] == 'U' && handle[24] == 'N' && enumeration[24] == 'E';
    SiteCallIff(meta, s, Call(version, Some(text)));
    SiteCallIff(meta, s, Call(enumeration, Some(text)));
    if IsEnumSite(meta, s) {
      var start, typename, a := EnumStart(s), s.place.ty.typename, s.accessor;
      assert start + (meta.structureType(typename) + " != ") == start + meta.structureType(typename) + " != ";
      assert start + (meta.maskName(typename) + " & ") == start + meta.maskName(typename) + " & ";
      assert start + (meta.enums[typename].max + " < ") == start + meta.enums[typename].max + " < ";
    }
  }

  /**
   Which enumerations are checked, under which code and with which text: a structure type for
   equality, flags with a mask against it, and any other enumeration against its maximum.
   */
  lemma {:induction false} EnumerationCheckIff(meta: Meta, params: seq<Param>, user: seq<UserReturn>, text: string)
    requires Sites(meta, params).Some?
    ensures var sites, calls := Sites(meta, params).value, FunctionCalls(meta, params, user).value;
            var version := Call("$X_RESULT_ERROR_UNSUPPORTED_VERSION", Some(text));
            var enumeration := Call("$X_RESULT_ERROR_INVALID_ENUMERATION", Some(text));
            && (version in calls <==>
                  || version in UserCalls(user)
                  || exists s :: && s in sites && IsEnumSite(meta, s) && "stype" <= s.place.name
                                 && text == EnumText(meta, s))
            && (enumeration in calls <==>
                  || enumeration in UserCalls(user)
                  || exists s :: && s in sites && IsEnumSite(meta, s) && !("stype" <= s.place.name)
                                 && text == EnumText(meta, s))
  {
    var sites := Sites(meta, params).value;
    SiteCallsMembers(meta, sites, Call("$X_RESULT_ERROR_UNSUPPORTED_VERSION", Some(text)));
    SiteCallsMembers(meta, sites, Call("$X_RESULT_ERROR_INVALID_ENUMERATION", Some(text)));
    forall s | s in sites
      ensures Call("$X_RESULT_ERROR_UNSUPPORTED_VERSION", Some(text)) in SiteCalls(meta, s) <==>
                IsEnumSite(meta, s) && "stype" <= s.place.name && text == EnumText(meta, s)
      ensures Call("$X_RESULT_ERROR_INVALID_ENUMERATION", Some(text)) in SiteCalls(meta, s) <==>
                IsEnumSite(meta, s) && !("stype" <= s.place.name) && text == EnumText(meta, s)
    {
      EnumSites(meta, s, text);
    }
  }

  /** Parameter `p` makes `s` a site: the parameter itself, or a member of the structure it points at. */
  ghost predicate MakesSite(meta: Meta, p: Param, s: Site) {
    && !p.nocheck
    && (|| s == Site(p, p, p.name)
        || (&& (p.ty.descriptor || p.ty.properties) && p.ty.typename in meta.structs
            && exists m :: m in meta.structs[p.ty.typename] && !m.nocheck && s == Site(p, m, p.name + "->" + m.name)))
  }

  lemma {:induction false} SitesOfIff(meta: Meta, p: Param, s: Site)
    requires !p.nocheck && MembersOf(meta, p).Some?
    ensures s in SitesOf(p, MembersOf(meta, p).value) <==> MakesSite(meta, p, s)
  {
    var members := MembersOf(meta, p).value;
    var sites := MemberSites(p, members);
    if p.ty.descriptor || p.ty.properties {
      FilterMembers(IsChecked, meta.structs[p.ty.typename]);
    }
    if s in sites {
      var k :| 0 <= k < |sites| && sites[k] == s;
      assert members[k] in members;
    }
    if m :| m in members && s == Site(p, m, p.name + "->" + m.name) {
      var k :| 0 <= k < |members| && members[k] == m;
      assert sites[k] == s;
    }
  }

  /** The places that are checked are exactly those of the parameters that are not exempt. */
  lemma {:induction false} SiteIff(meta: Meta, params: seq<Param>, s: Site)
    requires Sites(meta, params).Some?
    ensures s in Sites(meta, params).value <==> exists p :: p in params && MakesSite(meta, p, s)
  {
    if params != [] {
      var front, last := params[..|params| - 1], params[|params| - 1];
      SiteIff(meta, front, s);
      assert params == front + [last];
      assert forall p :: p in params <==> p in front || p == last;
      if !last.nocheck {
        SitesOfIff(meta, last, s);
      }
    }
  }

  /** The pass fails exactly for a checked parameter whose structure is unknown. */
  lemma {:induction false} SitesFailIff(meta: Meta, params: seq<Param>)
    ensures Sites(meta, params).None? <==>
              exists p :: && p in params && !p.nocheck && (p.ty.descriptor || p.ty.properties)
                          && p.ty.typename !in meta.structs
  {
    if params != [] {
      var front, last := params[..|params| - 1], params[|params| - 1];
      SitesFailIff(meta, front);
      assert params == front + [last];
      assert forall p :: p in params <==> p in front || p == last;
    }
  }

  /** What the specification's own returns give: a code alone, or each of the conditions listed with it. */
  lemma {:induction false} UserCallIff(user: seq<UserReturn>, call: Call)
    ensures call in UserCalls(user) <==>
              exists r :: r in user && (|| (r == Alone(call.code) && call.condition == None)
                                        || (&& r.With? && r.code == call.code
                                            && call.condition.Some? && call.condition.value in r.conditions))
  {
    if user != [] {
      var front, last := user[..|user| - 1], user[|user| - 1];
      UserCallIff(front, call);
      assert user == front + [last];
      assert forall r :: r in user <==> r in front || r == last;
      var own := UserCallsOf(last);
      if call in own {
        var k :| 0 <= k < |own| && own[k] == call;
        assert last.With? ==> last.conditions[k] in last.conditions;
      }
      if last.With? && last.code == call.code && call.condition.Some? && call.condition.value in last.conditions {
        var k :| 0 <= k < |last.conditions| && last.conditions[k] == call.condition.value;
        assert own[k] == call;
      }
    }
  }

  // ---------------------------------------------------------------- extraction of the checks

  predicate IsQuoted(s: string) {
    |s| >= 2 && s[0] == '`' && s[|s| - 1] == '`' && forall i :: 0 < i < |s| - 1 ==> s[i] != '`'
  }

  /** The text between the back-quotes; the end of the pattern also matches before a final newline. */
  function Check(condition: string): Option<string> {
    var n := |condition|;
    if IsQuoted(condition) then Some(condition[1..n - 1])
    else if n > 0 && condition[n - 1] == '\n' && IsQuoted(condition[..n - 1]) then Some(condition[1..n - 2])
    else None
  }

  /** What a call contributes under a name, after the substitution of tags in code and text. */
  predicate GivesCheck(call: Call, subst: string -> string, name: string) {
    call.Given() && subst(call.code) == name && Check(call.condition.value).Some?
  }

  function CheckText(call: Call, subst: string -> string): string
    requires call.Given() && Check(call.condition.value).Some?
  {
    subst(Check(call.condition.value).value)
  }

  function Texts(calls: seq<Call>, subst: string -> string, name: string): seq<string> {
    if calls == [] then []
    else
      (if GivesCheck(calls[0], subst, name) then [CheckText(calls[0], subst)] else [])
      + Texts(calls[1..], subst, name)
  }

  /** An entry as the calls that give its conditions. */
  function CallsOf(e: Entry): (calls: seq<Call>)
    ensures |calls| == |e.conditions|
  {
    seq(|e.conditions|, k requires 0 <= k < |e.conditions| => Call(e.code, Some(e.conditions[k])))
  }

  function AllCallsOf(rets: seq<Entry>): seq<Call> {
    if rets == [] then [] else CallsOf(rets[0]) + AllCallsOf(rets[1..])
  }

  /** What is collected under a name: the checks of all entries whose code becomes that name. */
  function ChecksFor(rets: seq<Entry>, subst: string -> string, name: string): seq<string> {
    Texts(AllCallsOf(rets), subst, name)
  }

  lemma {:induction false} TextsConcat(xs: seq<Call>, ys: seq<Call>, subst: string -> string, name: string)
    ensures Texts(xs + ys, subst, name) == Texts(xs, subst, name) + Texts(ys, subst, name)
  {
    if xs == [] {
      assert xs + ys == ys;
    } else {
      assert (xs + ys)[1..] == xs[1..] + ys;
      TextsConcat(xs[1..], ys, subst, name);
      var head := if GivesCheck(xs[0], subst, name) then [CheckText(xs[0], subst)] else [];
      assert Texts(xs, subst, name) == head + Texts(xs[1..], subst, name);
      assert head + (Texts(xs[1..], subst, name) + Texts(ys, subst, name)) ==
             head + Texts(xs[1..], subst, name) + Texts(ys, subst, name);
    }
  }

  lemma {:induction false} AllCallsConcat(xs: seq<Entry>, ys: seq<Entry>)
    ensures AllCallsOf(xs + ys) == AllCallsOf(xs) + AllCallsOf(ys)
  {
    if xs == [] {
      assert xs + ys == ys;
    } else {
      assert (xs + ys)[1..] == xs[1..] + ys;
      AllCallsConcat(xs[1..], ys);
      AppendTwice(CallsOf(xs[0]), AllCallsOf(xs[1..]), AllCallsOf(ys));
    }
  }

  lemma {:induction false} AllCallsOne(e: Entry)
    ensures AllCallsOf([e]) == CallsOf(e)
  {
    assert [e][1..] == [] && AllCallsOf([e][1..]) == [];
    assert CallsOf(e) + [] == CallsOf(e);
  }

  const BOUNDS_ERROR := "boundsError"

  /** The lists in the dictionary, after the returns and after the bounds of the parameters. */
  function Listed(rets: seq<Entry>, bounds: seq<string>, subst: string -> string, name: string): seq<string> {
    ChecksFor(rets, subst, name) + (if name == BOUNDS_ERROR then bounds else [])
  }

  /** Bounds checks are listed under their own name, after any checks of codes that become it. */
  lemma {:induction false} BoundsListed(rets: seq<Entry>, bounds: seq<string>, subst: string -> string, name: string)
    ensures Listed(rets, bounds, subst, name) ==
            if name == "boundsError" then ChecksFor(rets, subst, name) + bounds else ChecksFor(rets, subst, name)
  {
    assert ChecksFor(rets, subst, name) + [] == ChecksFor(rets, subst, name);
  }

  /** A dictionary that holds the collected checks and no empty lists. */
  ghost predicate Collected(
    checks: map<string, seq<string>>, rets: seq<Entry>, bounds: seq<string>, subst: string -> string)
  {
    forall name ::
      && (name in checks <==> Listed(rets, bounds, subst, name) != [])
      && (name in checks ==> checks[name] == Listed(rets, bounds, subst, name))
  }

  /** `subst` is the substitution of tags; `bounds` are the checks of the parameters with bounds. */
  method MakeParamChecks(rets: seq<Entry>, bounds: seq<string>, subst: string -> string)
    returns (checks: map<string, seq<string>>)
    ensures Collected(checks, rets, bounds, subst)
  {
    checks := map[];
    for i := 0 to |rets|
      invariant Collected(checks, rets[..i], [], subst)
    {
      checks := AddChecks(checks, rets[..i], rets[i], subst);
      assert rets[..i + 1] == rets[..i] + [rets[i]];
    }
    assert rets[..|rets|] == rets;
    for i := 0 to |bounds|
      invariant Collected(checks, rets, bounds[..i], subst)
    {
      MoreBounds(rets, bounds[..i], bounds[i], subst);
      checks := Added(checks, BOUNDS_ERROR, bounds[i]);
      assert bounds[..i + 1] == bounds[..i] + [bounds[i]];
    }
    assert bounds[..|bounds|] == bounds;
  }

  /** `checks[key].append(text)`, with the list created first if need be. */
  function Added(checks: map<string, seq<string>>, key: string, text: string): map<string, seq<string>> {
    checks[key := (if key in checks then checks[key] else []) + [text]]
  }

  /** The inner loop, over the conditions of one entry. */
  method AddChecks(before: map<string, seq<string>>, ghost done: seq<Entry>, e: Entry, subst: string -> string)
    returns (checks: map<string, seq<string>>)
    requires Collected(before, done, [], subst)
    ensures Collected(checks, done + [e], [], subst)
  {
    var key := subst(e.code);
    checks := before;
    NothingCollected(done, e.code, subst);
    for j := 0 to |e.conditions|
      invariant Collected(checks, done + [Entry(e.code, e.conditions[..j])], [], subst)
    {
      var code := Check(e.conditions[j]);
      MoreCollected(done, e.code, e.conditions[..j], e.conditions[j], subst);
      assert e.conditions[..j + 1] == e.conditions[..j] + [e.conditions[j]];
      if code.Some? {
        checks := Added(checks, key, subst(code.value));
      }
    }
    assert e.conditions[..|e.conditions|] == e.conditions;
  }

  lemma {:induction false} EntryAdds(done: seq<Entry>, e: Entry, subst: string -> string, name: string)
    ensures ChecksFor(done + [e], subst, name) == ChecksFor(done, subst, name) + Texts(CallsOf(e), subst, name)
  {
    AllCallsConcat(done, [e]);
    AllCallsOne(e);
    TextsConcat(AllCallsOf(done), CallsOf(e), subst, name);
  }

  lemma {:induction false} NothingCollected(done: seq<Entry>, code: string, subst: string -> string)
    ensures forall name ::
              Listed(done + [Entry(code, [])], [], subst, name) == Listed(done, [], subst, name)
  {
    forall name
      ensures Listed(done + [Entry(code, [])], [], subst, name) == Listed(done, [], subst, name)
    {
      EntryAdds(done, Entry(code, []), subst, name);
    }
  }

  lemma {:induction false} TextsAppend(calls: seq<Call>, call: Call, subst: string -> string, name: string)
    ensures Texts(calls + [call], subst, name) ==
            Texts(calls, subst, name) + (if GivesCheck(call, subst, name) then [CheckText(call, subst)] else [])
  {
    TextsConcat(calls, [call], subst, name);
    assert [call][1..] == [] && Texts([call][1..], subst, name) == [];
  }

  lemma {:induction false} MoreCollected(
      done: seq<Entry>, code: string, conditions: seq<string>, condition: string, subst: string -> string)
    ensures forall name ::
              Listed(done + [Entry(code, conditions + [condition])], [], subst, name) ==
              Listed(done + [Entry(code, conditions)], [], subst, name)
              + (if subst(code) == name && Check(condition).Some? then [subst(Check(condition).value)] else [])
  {
    var e, more := Entry(code, conditions), Entry(code, conditions + [condition]);
    forall name
      ensures Listed(done + [more], [], subst, name) ==
              Listed(done + [e], [], subst, name)
              + (if subst(code) == name && Check(condition).Some? then [subst(Check(condition).value)] else [])
    {
      EntryAdds(done, e, subst, name);
      EntryAdds(done, more, subst, name);
      assert CallsOf(more) == CallsOf(e) + [Call(code, Some(condition))];
      TextsAppend(CallsOf(e), Call(code, Some(condition)), subst, name);
    }
  }

  lemma {:induction false} MoreBounds(rets: seq<Entry>, bounds: seq<string>, text: string, subst: string -> string)
    ensures forall name ::
              Listed(rets, bounds + [text], subst, name) ==
              Listed(rets, bounds, subst, name) + (if name == BOUNDS_ERROR then [text] else [])
  {
  }

  // ---------------------------------------------------------------- what is extracted

  lemma {:induction false} EmptyEntriesGiveNothing(rets: seq<Entry>)
    ensures AllCallsOf(Filter(HasConditions, rets)) == AllCallsOf(rets)
  {
    if rets != [] {
      EmptyEntriesGiveNothing(rets[1..]);
      var rest := Filter(HasConditions, rets[1..]);
      if HasConditions(rets[0]) {
        assert ([rets[0]] + rest)[1..] == rest;
      } else {
        assert [] + rest == rest;
        assert CallsOf(rets[0]) == [];
      }
    }
  }

  /**
   The checks extracted under a name are exactly those of the given conditions: code by code in the
   order in which the codes are first given a condition, and for each code its back-quoted conditions
   in the order of first occurrence, with the tags substituted.
   */
  lemma {:induction false} ExtractedChecks(calls: seq<Call>, subst: string -> string, name: string)
    ensures ChecksFor(Accumulate(calls), subst, name) == ChecksFor(Grouped(calls), subst, name)
  {
    AccumulatedInOrder(calls);
    EmptyEntriesGiveNothing(Accumulate(calls));
  }

  /** Only this code becomes its name. */
  predicate OwnName(rets: seq<Entry>, subst: string -> string, code: string) {
    forall e :: e in rets && subst(e.code) == subst(code) ==> e.code == code
  }

  lemma {:induction false} OtherNameGivesNothing(calls: seq<Call>, subst: string -> string, name: string)
    requires forall k :: 0 <= k < |calls| ==> subst(calls[k].code) != name
    ensures Texts(calls, subst, name) == []
  {
    if calls != [] {
      assert subst(calls[0].code) != name;
      forall k | 0 <= k < |calls[1..]|
        ensures subst(calls[1..][k].code) != name
      {
        assert calls[1..][k] == calls[k + 1];
      }
      OtherNameGivesNothing(calls[1..], subst, name);
    }
  }

  lemma {:induction false} NoSuchCode(groups: seq<Entry>, subst: string -> string, code: string)
    requires OwnName(groups, subst, code) && forall e :: e in groups ==> e.code != code
    ensures ChecksFor(groups, subst, subst(code)) == []
  {
    if groups != [] {
      assert groups[0] in groups;
      NoSuchCode(groups[1..], subst, code);
      OtherNameGivesNothing(CallsOf(groups[0]), subst, subst(code));
      TextsConcat(CallsOf(groups[0]), AllCallsOf(groups[1..]), subst, subst(code));
    }
  }

  lemma {:induction false} OneGroupCounts(groups: seq<Entry>, subst: string -> string, n: nat)
    requires n < |groups| && OwnName(groups, subst, groups[n].code)
    requires forall k :: 0 <= k < |groups| && k != n ==> groups[k].code != groups[n].code
    ensures ChecksFor(groups, subst, subst(groups[n].code)) == Texts(CallsOf(groups[n]), subst, subst(groups[n].code))
  {
    var front, back, name := groups[..n], groups[n + 1..], subst(groups[n].code);
    assert groups == front + ([groups[n]] + back);
    assert forall e :: e in front || e in back ==> e in groups;
    NoSuchCode(front, subst, groups[n].code);
    NoSuchCode(back, subst, groups[n].code);
    AllCallsConcat(front, [groups[n]] + back);
    AllCallsConcat([groups[n]], back);
    AllCallsOne(groups[n]);
    TextsConcat(AllCallsOf(front), CallsOf(groups[n]) + AllCallsOf(back), subst, name);
    TextsConcat(CallsOf(groups[n]), AllCallsOf(back), subst, name);
  }

  /** For a code that shares its name with no other: exactly its back-quoted conditions, in order. */
  lemma {:induction false} ExtractedChecksOfCode(calls: seq<Call>, subst: string -> string, code: string)
    requires OwnName(Grouped(calls), subst, code)
    ensures ChecksFor(Accumulate(calls), subst, subst(code)) ==
            Texts(CallsOf(GroupOf(calls, code)), subst, subst(code))
  {
    var codes, groups := FirstOccurrences(GivenCodes(calls)), Grouped(calls);
    ExtractedChecks(calls, subst, subst(code));
    GivenCodesHave(calls, code);
    if code in codes {
      var n :| 0 <= n < |codes| && codes[n] == code;
      OneGroupCounts(groups, subst, n);
    } else {
      NoSuchCode(groups, subst, code);
      assert FirstOccurrences([]) == [];
    }
  }

  // ---------------------------------------------------------------- each condition once

  lemma {:induction false} CallsOfMember(rets: seq<Entry>, call: Call)
    ensures call in AllCallsOf(rets) <==>
              && call.condition.Some?
              && exists e :: e in rets && e.code == call.code && call.condition.value in e.conditions
  {
    if rets != [] {
      CallsOfMember(rets[1..], call);
      assert rets == [rets[0]] + rets[1..];
      assert forall e :: e in rets <==> e == rets[0] || e in rets[1..];
      if call in CallsOf(rets[0]) {
        var k :| 0 <= k < |CallsOf(rets[0])| && CallsOf(rets[0])[k] == call;
        assert rets[0].conditions[k] in rets[0].conditions;
      }
      if call.condition.Some? && rets[0].code == call.code && call.condition.value in rets[0].conditions {
        var k :| 0 <= k < |rets[0].conditions| && rets[0].conditions[k] == call.condition.value;
        assert CallsOf(rets[0])[k] == call;
      }
    }
  }

  /** Two lists of entries that differ in one condition at the end of one entry. */
  lemma {:induction false} OneMoreCondition(rets: seq<Entry>, i: nat, c: string)
    requires i < |rets|
    ensures multiset(AllCallsOf(rets[i := Entry(rets[i].code, rets[i].conditions + [c])])) ==
            multiset(AllCallsOf(rets)) + multiset{Call(rets[i].code, Some(c))}
  {
    var e := Entry(rets[i].code, rets[i].conditions + [c]);
    var front, back := rets[..i], rets[i + 1..];
    assert rets == front + ([rets[i]] + back) && rets[i := e] == front + ([e] + back);
    AllCallsConcat(front, [rets[i]] + back);
    AllCallsConcat(front, [e] + back);
    AllCallsConcat([rets[i]], back);
    AllCallsConcat([e], back);
    AllCallsOne(rets[i]);
    AllCallsOne(e);
    assert CallsOf(e) == CallsOf(rets[i]) + [Call(rets[i].code, Some(c))];
  }

  /** An append records its condition unless it is recorded already. */
  lemma {:induction false} AppendRecords(rets: seq<Entry>, call: Call)
    requires OneEntryPerCode(rets)
    ensures multiset(AllCallsOf(Append(rets, call))) ==
            if call.Given() && call !in AllCallsOf(rets) then multiset(AllCallsOf(rets)) + multiset{call}
            else multiset(AllCallsOf(rets))
  {
    var i := Find(rets, call.code);
    CallsOfMember(rets, call);
    var grown := if i == |rets| then rets + [Entry(call.code, [])] else rets;
    if i == |rets| {
      AllCallsConcat(rets, [Entry(call.code, [])]);
      AllCallsOne(Entry(call.code, []));
    }
    if call.Given() {
      OneMoreCondition(grown, i, call.condition.value);
      RecordedAtFind(rets, call);
    }
  }

  lemma {:induction false} RecordedAtFind(rets: seq<Entry>, call: Call)
    requires OneEntryPerCode(rets) && call.Given()
    ensures call in AllCallsOf(rets) <==> call.condition.value in Lookup(rets, call.code)
  {
    CallsOfMember(rets, call);
    var i := Find(rets, call.code);
    if call in AllCallsOf(rets) {
      var e :| e in rets && e.code == call.code && call.condition.value in e.conditions;
      var j :| 0 <= j < |rets| && rets[j] == e;
      FindUnique(rets, call.code, j);
    }
    if call.condition.value in Lookup(rets, call.code) {
      assert rets[i] in rets;
    }
  }

  /** Every condition that is given is recorded exactly once, and nothing else is. */
  lemma {:induction false} EachConditionOnce(calls: seq<Call>, call: Call)
    ensures multiset(AllCallsOf(Accumulate(calls)))[call] == if call in calls && call.Given() then 1 else 0
  {
    if calls == [] {
      CallsOfMember(DEFAULTS, call);
    } else {
      var front, last := calls[..|calls| - 1], calls[|calls| - 1];
      assert calls == front + [last];
      EachConditionOnce(front, call);
      AccumulatedConditions(front, last.code);
      AppendRecords(Accumulate(front), last);
    }
  }

  // ---------------------------------------------------------------- duplicates among the checks

  lemma {:induction false} TextsMembers(calls: seq<Call>, subst: string -> string, name: string, t: string)
    ensures t in Texts(calls, subst, name) <==>
              exists c :: c in calls && GivesCheck(c, subst, name) && CheckText(c, subst) == t
  {
    if calls != [] {
      TextsMembers(calls[1..], subst, name, t);
      assert forall c :: c in calls <==> c == calls[0] || c in calls[1..];
    }
  }

  /** Different calls give different checks under the name. */
  ghost predicate DifferentTexts(calls: seq<Call>, subst: string -> string, name: string) {
    forall c, d :: (&& c in calls && GivesCheck(c, subst, name)
                    && d in calls && GivesCheck(d, subst, name)
                    && CheckText(c, subst) == CheckText(d, subst)) ==> c == d
  }

  lemma {:induction false} DistinctCons<T>(x: T, xs: seq<T>)
    ensures Distinct([x] + xs) <==> x !in xs && Distinct(xs)
  {
    var all := [x] + xs;
    if Distinct(all) {
      forall i | 0 <= i < |xs|
        ensures xs[i] != x
      {
        assert all[i + 1] == xs[i] && all[0] == x;
      }
      forall i, j | 0 <= i < j < |xs|
        ensures xs[i] != xs[j]
      {
        assert all[i + 1] != all[j + 1];
      }
    }
  }

  lemma {:induction false} DistinctTexts(calls: seq<Call>, subst: string -> string, name: string)
    requires Distinct(calls)
    ensures Distinct(Texts(calls, subst, name)) <==> DifferentTexts(calls, subst, name)
  {
    if calls != [] {
      var c, rest := calls[0], calls[1..];
      assert calls == [c] + rest;
      DistinctCons(c, rest);
      DistinctTexts(rest, subst, name);
      assert forall d :: d in calls <==> d == c || d in rest;
      if GivesCheck(c, subst, name) {
        DistinctCons(CheckText(c, subst), Texts(rest, subst, name));
        TextsMembers(rest, subst, name, CheckText(c, subst));
      } else {
        assert Texts(calls, subst, name) == Texts(rest, subst, name);
      }
    }
  }

  lemma {:induction false} AccumulatedDistinct(calls: seq<Call>)
    ensures Distinct(AllCallsOf(Accumulate(calls)))
    ensures forall c :: c in AllCallsOf(Accumulate(calls)) <==> c in calls && c.Given()
  {
    var all := AllCallsOf(Accumulate(calls));
    forall i, j | 0 <= i < j < |all|
      ensures all[i] != all[j]
    {
      if all[i] == all[j] {
        CountTwo(all, i, j);
        EachConditionOnce(calls, all[i]);
      }
    }
    forall c
      ensures c in all <==> c in calls && c.Given()
    {
      EachConditionOnce(calls, c);
      assert c in all <==> c in multiset(all);
    }
  }

  /**
   The checks extracted under a name are pairwise different if and only if no two different given
   conditions, of codes that become that name, have the same text between the back-quotes after the
   substitution of tags.
   */
  lemma {:induction false} NoDuplicateChecksIff(calls: seq<Call>, subst: string -> string, name: string)
    ensures Distinct(ChecksFor(Accumulate(calls), subst, name)) <==> DifferentTexts(calls, subst, name)
  {
    AccumulatedDistinct(calls);
    DistinctTexts(AllCallsOf(Accumulate(calls)), subst, name);
  }

  lemma {:induction false} CheckSpellings(condition: string, c: string)
    requires Check(condition) == Some(c)
    ensures condition == "`" + c + "`" || condition == "`" + c + "`\n"
    ensures '`' !in c
  {
    var n := |condition|;
    if IsQuoted(condition) {
      assert condition == "`" + condition[1..n - 1] + "`";
    } else {
      var front := condition[..n - 1];
      assert condition[1..n - 2] == front[1..n - 2];
      assert condition == front + "\n";
      assert front == "`" + condition[1..n - 2] + "`";
    }
  }

  lemma {:induction false} SpellingsCheck(c: string)
    requires '`' !in c
    ensures Check("`" + c + "`") == Some(c) && Check("`" + c + "`\n") == Some(c)
  {
    var q := "`" + c + "`";
    assert q[1..|q| - 1] == c;
    var w := "`" + c + "`\n";
    assert w[..|w| - 1] == q;
    assert w[1..|w| - 2] == c;
  }

  /** The same check of a code, spelled with and without a final newline. */
  ghost predicate BothSpellings(calls: seq<Call>, code: string) {
    exists c :: '`' !in c && Call(code, Some("`" + c + "`")) in calls && Call(code, Some("`" + c + "`\n")) in calls
  }

  /** When substitution keeps texts apart, only a final newline makes a duplicate. */
  lemma {:induction false} NoDuplicatesUnlessBothSpellings(calls: seq<Call>, subst: string -> string, code: string)
    requires forall s, t :: subst(s) == subst(t) ==> s == t
    ensures Distinct(ChecksFor(Accumulate(calls), subst, subst(code))) <==> !BothSpellings(calls, code)
  {
    var name := subst(code);
    NoDuplicateChecksIff(calls, subst, name);
    if !DifferentTexts(calls, subst, name) {
      var x, y :| x in calls && y in calls && GivesCheck(x, subst, name) && GivesCheck(y, subst, name)
                  && CheckText(x, subst) == CheckText(y, subst) && x != y;
      var c := Check(x.condition.value).value;
      assert x.code == code && y.code == code;
      CheckSpellings(x.condition.value, c);
      CheckSpellings(y.condition.value, c);
    }
    if BothSpellings(calls, code) {
      var c :| '`' !in c && Call(code, Some("`" + c + "`")) in calls && Call(code, Some("`" + c + "`\n")) in calls;
      SpellingsCheck(c);
      var x, y := Call(code, Some("`" + c + "`")), Call(code, Some("`" + c + "`\n"));
      assert |x.condition.value| != |y.condition.value|;
      assert GivesCheck(x, subst, name) && GivesCheck(y, subst, name);
    }
  }

  /** Where substitution does not keep texts apart, two conditions become one check. */
  lemma {:induction false} TagsMakeDuplicates(subst: string -> string, code: string, c: string, d: string)
    requires c != d && Check(c).Some? && Check(d).Some? && subst(Check(c).value) == subst(Check(d).value)
    ensures !Distinct(ChecksFor(Accumulate([Call(code, Some(c)), Call(code, Some(d))]), subst, subst(code)))
  {
    var x, y, name := Call(code, Some(c)), Call(code, Some(d)), subst(code);
    NoDuplicateChecksIff([x, y], subst, name);
    assert GivesCheck(x, subst, name) && GivesCheck(y, subst, name);
    assert x in [x, y] && y in [x, y];
  }

  // ---------------------------------------------------------------- the default codes

  /** The four default codes come first and stay empty: a condition for such a code gets a new entry. */
  lemma {:induction false} DefaultsComeFirst(calls: seq<Call>)
    ensures [Entry("$X_RESULT_SUCCESS", []), Entry("$X_RESULT_ERROR_UNINITIALIZED", []),
             Entry("$X_RESULT_ERROR_DEVICE_LOST", []), Entry("$X_RESULT_ERROR_ADAPTER_SPECIFIC", [])]
            <= Accumulate(calls)
  {
    DefaultsStayEmpty(calls);
  }

  lemma {:induction false} DefaultsStayEmpty(calls: seq<Call>)
    ensures DEFAULTS <= Accumulate(calls)
  {
    if calls != [] {
      var front, last := calls[..|calls| - 1], calls[|calls| - 1];
      DefaultsStayEmpty(front);
      var rets, next := Accumulate(front), Accumulate(calls);
      var i := Find(rets, last.code);
      assert forall k :: 0 <= k < |DEFAULTS| ==> rets[k] == DEFAULTS[k];
      assert i >= |DEFAULTS|;
      assert next[..|DEFAULTS|] == rets[..|DEFAULTS|];
    }
  }
}
