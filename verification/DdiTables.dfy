/** The class index of the specification and the DDI tables that are built from it. */
module DdiTables {
  import opened Prelude
  import opened StableSort

  /** A document of the specification; `bareName` is its name without the arguments of a macro. */
  datatype Object = Object(
    kind: string, name: string, bareName: string,
    cls: Option<string>, base: Option<string>, owner: Option<string>,
    major: nat, ordinal: int, loaderOnly: bool, guard: Option<string>)
  {
    predicate IsFunction() {
      "function" <= kind
    }

    predicate IsExperimental() {
      |name| >= 3 && name[|name| - 3..] == "Exp"
    }

    /** It belongs to a class; an empty class name counts as none. */
    predicate HasClass() {
      cls.Some? && cls.value != ""
    }
  }

  datatype Error = DuplicateName | UnknownBase | MissingHandle | MissingOrdinal | GuardConflict

  // ---------------------------------------------------------------- the class index

  const HANDLE := "handle"

  /** One class: its ordinal, once known, the kinds it has a list for, and its members by kind and name. */
  datatype ClassInfo = ClassInfo(
    name: string, ordinal: Option<int>, kinds: set<string>, members: set<(string, string)>)
  {
    function Handles(): set<(string, string)> {
      set m | m in members && m.0 == HANDLE
    }
  }

  /** Position of a class in the index, which keeps the order of insertion. */
  function IndexOf(index: seq<ClassInfo>, name: string): (i: nat)
    ensures i <= |index|
    ensures i < |index| ==> index[i].name == name
    ensures forall j :: 0 <= j < i ==> index[j].name != name
  {
    if index == [] || index[0].name == name then 0 else 1 + IndexOf(index[1..], name)
  }

  predicate HasEntry(index: seq<ClassInfo>, name: string) {
    IndexOf(index, name) < |index|
  }

  predicate DistinctClasses(index: seq<ClassInfo>) {
    forall i, j :: 0 <= i < j < |index| ==> index[i].name != index[j].name
  }

  /** Every entry stays, keeps its members and its place. */
  predicate Extends(index: seq<ClassInfo>, more: seq<ClassInfo>) {
    && |index| <= |more|
    && forall i :: 0 <= i < |index| ==> index[i].name == more[i].name && index[i].members <= more[i].members
  }

  /** The index with an entry for the class; a new entry goes to the end. */
  function Ensured(index: seq<ClassInfo>, name: string, ordinal: Option<int>): (grown: seq<ClassInfo>)
    ensures HasEntry(grown, name)
    ensures DistinctClasses(index) ==> DistinctClasses(grown)
    ensures Extends(index, grown)
  {
    if HasEntry(index, name) then index
    else
      var grown := index + [ClassInfo(name, ordinal, {}, {})];
      assert grown[|index|].name == name;
      grown
  }

  /** Registering a document under its class. */
  function AddMember(index: seq<ClassInfo>, d: Object): Result<seq<ClassInfo>, Error> {
    if !d.HasClass() then Ok(index)
    else
      var grown := Ensured(index, d.cls.value, Some(0));
      var i := IndexOf(grown, d.cls.value);
      if (d.kind, d.bareName) in grown[i].members then Err(DuplicateName)
      else
        Ok(grown[i := grown[i].(kinds := grown[i].kinds + {d.kind},
                                members := grown[i].members + {(d.kind, d.bareName)})])
  }

  /** `name[:2]` */
  function FirstTwo(name: string): string {
    if |name| <= 2 then name else name[..2]
  }

  /** Names are of one namespace when their first two characters agree. */
  lemma {:induction false} FirstTwoIff(a: string, b: string)
    ensures FirstTwo(a) == FirstTwo(b) <==>
              if |a| < 2 || |b| < 2 then a == b else a[0] == b[0] && a[1] == b[1]
  {
    if |a| >= 2 && |b| >= 2 && a[0] == b[0] && a[1] == b[1] {
      assert a[..2] == b[..2];
    }
    if |a| >= 2 && |b| >= 2 && a[..2] == b[..2] {
      assert a[0] == a[..2][0] == b[0] && a[1] == a[..2][1] == b[1];
    }
  }

  /** A class with a base has a list of handles, to which those of a base of its namespace are added. */
  function Inherit(index: seq<ClassInfo>, name: string, base: string): Result<seq<ClassInfo>, Error>
    requires HasEntry(index, name)
  {
    if !HasEntry(index, base) then Err(UnknownBase)
    else
      var i := IndexOf(index, name);
      var own := index[i].(kinds := index[i].kinds + {HANDLE});
      var listed := index[i := own];
      var from := listed[IndexOf(index, base)];
      if FirstTwo(name) != FirstTwo(base) then Ok(listed)
      else if HANDLE !in from.kinds then Err(MissingHandle)
      else Ok(listed[i := own.(members := own.members + from.Handles())])
  }

  /** A class document sets the ordinal of its class, inherits from its base and makes its owner known. */
  function AddClass(index: seq<ClassInfo>, d: Object, ordinal: int): Result<seq<ClassInfo>, Error> {
    if d.kind != "class" then Ok(index)
    else
      var grown := Ensured(index, d.bareName, None);
      var i := IndexOf(grown, d.bareName);
      var placed := grown[i := grown[i].(ordinal := Some(ordinal))];
      SameNames(grown, placed, d.bareName);
      match (if d.base.Some? then Inherit(placed, d.bareName, d.base.value) else Ok(placed))
      case Err(e) => Err(e)
      case Ok(heir) => Ok(if d.owner.Some? then Ensured(heir, d.owner.value, None) else heir)
  }

  lemma SameNames(index: seq<ClassInfo>, more: seq<ClassInfo>, name: string)
    requires |index| == |more| && forall k :: 0 <= k < |index| ==> index[k].name == more[k].name
    ensures IndexOf(index, name) == IndexOf(more, name)
  {
  }

  function AddDocument(index: seq<ClassInfo>, d: Object, ordinal: int): Result<seq<ClassInfo>, Error> {
    match AddMember(index, d)
    case Err(e) => Err(e)
    case Ok(grown) => AddClass(grown, d, ordinal)
  }

  /** The index after all documents, each with the ordinal of its file. */
  function ClassIndex(docs: seq<(Object, int)>): Result<seq<ClassInfo>, Error> {
    if docs == [] then Ok([])
    else
      match ClassIndex(docs[..|docs| - 1])
      case Err(e) => Err(e)
      case Ok(index) => AddDocument(index, docs[|docs| - 1].0, docs[|docs| - 1].1)
  }

  method GenerateMeta(docs: seq<(Object, int)>) returns (r: Result<seq<ClassInfo>, Error>)
    ensures r == ClassIndex(docs)
  {
    var index: seq<ClassInfo> := [];
    for n := 0 to |docs|
      invariant ClassIndex(docs[..n]) == Ok(index)
    {
      assert docs[..n + 1][..n] == docs[..n];
      var next := AddDocument(index, docs[n].0, docs[n].1);
      if next.Err? {
        FailsForGood(docs, n + 1);
        return next;
      }
      index := next.value;
    }
    assert docs[..|docs|] == docs;
    r := Ok(index);
  }

  lemma {:induction false} FailsForGood(docs: seq<(Object, int)>, n: nat)
    requires n <= |docs| && ClassIndex(docs[..n]).Err?
    ensures ClassIndex(docs) == ClassIndex(docs[..n])
    decreases |docs|
  {
    if n < |docs| {
      assert docs[..|docs| - 1][..n] == docs[..n];
      FailsForGood(docs[..|docs| - 1], n);
    } else {
      assert docs[..n] == docs;
    }
  }

  predicate Indexed(index: seq<ClassInfo>, d: Object) {
    d.HasClass() ==>
      exists k :: 0 <= k < |index| && index[k].name == d.cls.value && (d.kind, d.bareName) in index[k].members
  }

  lemma {:induction false} AddMemberFacts(index: seq<ClassInfo>, d: Object)
    requires DistinctClasses(index) && AddMember(index, d).Ok?
    ensures var next := AddMember(index, d).value;
            DistinctClasses(next) && Extends(index, next) && Indexed(next, d)
  {
    if d.HasClass() {
      var grown := Ensured(index, d.cls.value, Some(0));
      var i := IndexOf(grown, d.cls.value);
      var next := AddMember(index, d).value;
      assert next[i].name == d.cls.value && (d.kind, d.bareName) in next[i].members;
    }
  }

  /** The same classes in the same places, with no fewer members. */
  predicate SamePlaces(index: seq<ClassInfo>, more: seq<ClassInfo>) {
    |index| == |more| && Extends(index, more)
  }

  lemma SamePlacesDistinct(index: seq<ClassInfo>, more: seq<ClassInfo>)
    requires SamePlaces(index, more) && DistinctClasses(index)
    ensures DistinctClasses(more)
  {
  }

  lemma InheritFacts(index: seq<ClassInfo>, name: string, base: string)
    requires HasEntry(index, name) && Inherit(index, name, base).Ok?
    ensures SamePlaces(index, Inherit(index, name, base).value)
  {
  }

  lemma {:induction false} ExtendsTransitive(a: seq<ClassInfo>, b: seq<ClassInfo>, c: seq<ClassInfo>)
    requires Extends(a, b) && Extends(b, c)
    ensures Extends(a, c)
  {
    forall i | 0 <= i < |a|
      ensures a[i].name == c[i].name && a[i].members <= c[i].members
    {
      assert a[i].members <= b[i].members && b[i].members <= c[i].members;
    }
  }

  lemma {:induction false} AddClassFacts(index: seq<ClassInfo>, d: Object, ordinal: int)
    requires DistinctClasses(index) && AddClass(index, d, ordinal).Ok?
    ensures var next := AddClass(index, d, ordinal).value;
            DistinctClasses(next) && Extends(index, next)
  {
    if d.kind == "class" {
      var grown := Ensured(index, d.bareName, None);
      var i := IndexOf(grown, d.bareName);
      var placed := grown[i := grown[i].(ordinal := Some(ordinal))];
      SameNames(grown, placed, d.bareName);
      SamePlacesDistinct(grown, placed);
      var heir := placed;
      if d.base.Some? {
        InheritFacts(placed, d.bareName, d.base.value);
        heir := Inherit(placed, d.bareName, d.base.value).value;
        SamePlacesDistinct(placed, heir);
      }
      ExtendsTransitive(index, grown, placed);
      ExtendsTransitive(index, placed, heir);
      ExtendsTransitive(index, heir, AddClass(index, d, ordinal).value);
    }
  }

  lemma {:induction false} AddDocumentFacts(index: seq<ClassInfo>, d: Object, ordinal: int)
    requires DistinctClasses(index) && AddDocument(index, d, ordinal).Ok?
    ensures var next := AddDocument(index, d, ordinal).value;
            DistinctClasses(next) && Extends(index, next) && Indexed(next, d)
  {
    AddMemberFacts(index, d);
    var grown := AddMember(index, d).value;
    AddClassFacts(grown, d, ordinal);
    IndexedExtends(grown, AddClass(grown, d, ordinal).value, d);
  }

  lemma {:induction false} IndexedExtends(index: seq<ClassInfo>, more: seq<ClassInfo>, d: Object)
    requires Extends(index, more) && Indexed(index, d)
    ensures Indexed(more, d)
  {
    if d.HasClass() {
      var k :| 0 <= k < |index| && index[k].name == d.cls.value && (d.kind, d.bareName) in index[k].members;
      assert more[k].name == d.cls.value && (d.kind, d.bareName) in more[k].members;
    }
  }

  /** Two documents of one class with the same kind and bare name. */
  predicate Clash(d: Object, e: Object) {
    d.HasClass() && e.HasClass() && d.cls == e.cls && d.kind == e.kind && d.bareName == e.bareName
  }

  predicate NoClash(docs: seq<(Object, int)>) {
    forall i, j :: 0 <= i < j < |docs| ==> !Clash(docs[i].0, docs[j].0)
  }

  lemma {:induction false} AddedDoesNotClash(index: seq<ClassInfo>, d: Object, e: Object)
    requires DistinctClasses(index) && Indexed(index, d) && AddMember(index, e).Ok?
    ensures !Clash(d, e)
  {
    if d.HasClass() && e.HasClass() && d.cls == e.cls {
      var k :| 0 <= k < |index| && index[k].name == d.cls.value && (d.kind, d.bareName) in index[k].members;
      assert IndexOf(index, e.cls.value) == k;
      assert Ensured(index, e.cls.value, Some(0)) == index;
    }
  }

  /** Every document is indexed, each class is there once, and no two documents clash. */
  ghost predicate IndexOk(index: seq<ClassInfo>, docs: seq<(Object, int)>) {
    && DistinctClasses(index)
    && (forall i :: 0 <= i < |docs| ==> Indexed(index, docs[i].0))
    && NoClash(docs)
  }

  lemma {:induction false} IndexOkStep(index: seq<ClassInfo>, front: seq<(Object, int)>, last: (Object, int))
    requires IndexOk(index, front) && AddDocument(index, last.0, last.1).Ok?
    ensures IndexOk(AddDocument(index, last.0, last.1).value, front + [last])
  {
    var docs, next := front + [last], AddDocument(index, last.0, last.1).value;
    AddDocumentFacts(index, last.0, last.1);
    forall i | 0 <= i < |docs|
      ensures Indexed(next, docs[i].0)
    {
      if i < |front| {
        IndexedExtends(index, next, front[i].0);
      }
    }
    forall i, j | 0 <= i < j < |docs|
      ensures !Clash(docs[i].0, docs[j].0)
    {
      if j < |front| {
        assert !Clash(front[i].0, front[j].0);
      } else {
        AddedDoesNotClash(index, front[i].0, last.0);
      }
    }
  }

  /** The finished index knows the class of every document, each class once, and no document twice. */
  lemma {:induction false} ClassIndexFacts(docs: seq<(Object, int)>)
    requires ClassIndex(docs).Ok?
    ensures IndexOk(ClassIndex(docs).value, docs)
    decreases |docs|
  {
    if docs != [] {
      var front, last := docs[..|docs| - 1], docs[|docs| - 1];
      ClassIndexFacts(front);
      IndexOkStep(ClassIndex(front).value, front, last);
      assert docs == front + [last];
    }
  }

  // ---------------------------------------------------------------- the ordinals of classes

  /** What the index says about the ordinal of a class; `None` if it does not know the class. */
  function OrdinalIn(index: seq<ClassInfo>, name: string): Option<Option<int>> {
    if HasEntry(index, name) then Some(index[IndexOf(index, name)].ordinal) else None
  }

  predicate IsClassDocument(d: Object, name: string) {
    d.kind == "class" && d.bareName == name
  }

  /** The document belongs to the class. */
  predicate IsMemberOf(d: Object, name: string) {
    d.HasClass() && d.cls.value == name
  }

  /** The document makes the class known: as its own, as the class it declares, or as that one's owner. */
  predicate MakesKnown(d: Object, name: string) {
    IsMemberOf(d, name) || IsClassDocument(d, name) || (d.kind == "class" && d.owner == Some(name))
  }

  lemma {:induction false} OrdinalUpdated(index: seq<ClassInfo>, more: seq<ClassInfo>, name: string)
    requires |index| == |more|
    requires forall k :: 0 <= k < |index| ==> index[k].name == more[k].name && index[k].ordinal == more[k].ordinal
    ensures OrdinalIn(more, name) == OrdinalIn(index, name)
  {
    SameNames(index, more, name);
  }

  lemma {:induction false} IndexOfAppend(index: seq<ClassInfo>, c: ClassInfo, name: string)
    ensures IndexOf(index + [c], name) ==
            if HasEntry(index, name) then IndexOf(index, name)
            else if c.name == name then |index| else |index| + 1
  {
    var all := index + [c];
    var i := IndexOf(all, name);
    assert all[|index|] == c;
    if HasEntry(index, name) {
      assert all[IndexOf(index, name)].name == name;
      assert i < |index| ==> index[i].name == name;
    } else {
      assert forall k :: 0 <= k < |index| ==> all[k].name != name;
    }
  }

  lemma {:induction false} OrdinalEnsured(index: seq<ClassInfo>, cname: string, ordinal: Option<int>, name: string)
    ensures OrdinalIn(Ensured(index, cname, ordinal), name) ==
            if cname == name && OrdinalIn(index, name) == None then Some(ordinal) else OrdinalIn(index, name)
  {
    if !HasEntry(index, cname) {
      IndexOfAppend(index, ClassInfo(cname, ordinal, {}, {}), name);
    }
  }

  lemma {:induction false} OrdinalOfMember(index: seq<ClassInfo>, d: Object, name: string)
    requires AddMember(index, d).Ok?
    ensures OrdinalIn(AddMember(index, d).value, name) ==
            if IsMemberOf(d, name) && OrdinalIn(index, name) == None then Some(Some(0)) else OrdinalIn(index, name)
  {
    if d.HasClass() {
      var grown := Ensured(index, d.cls.value, Some(0));
      OrdinalEnsured(index, d.cls.value, Some(0), name);
      OrdinalUpdated(grown, AddMember(index, d).value, name);
    }
  }

  lemma {:induction false} OrdinalPlaced(index: seq<ClassInfo>, cname: string, ordinal: int, name: string)
    requires HasEntry(index, cname)
    ensures var i := IndexOf(index, cname);
            OrdinalIn(index[i := index[i].(ordinal := Some(ordinal))], name) ==
            if cname == name then Some(Some(ordinal)) else OrdinalIn(index, name)
  {
    var i := IndexOf(index, cname);
    SameNames(index, index[i := index[i].(ordinal := Some(ordinal))], name);
  }

  lemma {:induction false} OrdinalOfClass(index: seq<ClassInfo>, d: Object, ordinal: int, name: string)
    requires d.kind == "class" && AddClass(index, d, ordinal).Ok?
    ensures OrdinalIn(AddClass(index, d, ordinal).value, name) ==
            if d.bareName == name then Some(Some(ordinal))
            else if d.owner == Some(name) && OrdinalIn(index, name) == None then Some(None)
            else OrdinalIn(index, name)
  {
    var grown := Ensured(index, d.bareName, None);
    var i := IndexOf(grown, d.bareName);
    var placed := grown[i := grown[i].(ordinal := Some(ordinal))];
    OrdinalEnsured(index, d.bareName, None, name);
    OrdinalPlaced(grown, d.bareName, ordinal, name);
    SameNames(grown, placed, d.bareName);
    var heir := placed;
    if d.base.Some? {
      heir := Inherit(placed, d.bareName, d.base.value).value;
      OrdinalInherited(placed, d.bareName, d.base.value, name);
    }
    assert OrdinalIn(heir, name) == if d.bareName == name then Some(Some(ordinal)) else OrdinalIn(index, name);
    if d.owner.Some? {
      OrdinalEnsured(heir, d.owner.value, None, name);
    }
  }

  lemma {:induction false} OrdinalInherited(index: seq<ClassInfo>, cname: string, base: string, name: string)
    requires HasEntry(index, cname) && Inherit(index, cname, base).Ok?
    ensures OrdinalIn(Inherit(index, cname, base).value, name) == OrdinalIn(index, name)
  {
    OrdinalUpdated(index, Inherit(index, cname, base).value, name);
  }

  /** What one document does to the ordinal of a class. */
  lemma {:induction false} OrdinalStep(index: seq<ClassInfo>, d: Object, ordinal: int, name: string)
    requires AddDocument(index, d, ordinal).Ok?
    ensures OrdinalIn(AddDocument(index, d, ordinal).value, name) ==
            if IsClassDocument(d, name) then Some(Some(ordinal))
            else if OrdinalIn(index, name) != None then OrdinalIn(index, name)
            else if IsMemberOf(d, name) then Some(Some(0))
            else if MakesKnown(d, name) then Some(None)
            else None
  {
    OrdinalOfMember(index, d, name);
    if d.kind == "class" {
      OrdinalOfClass(AddMember(index, d).value, d, ordinal, name);
    }
  }

  lemma {:induction false} KnownStep(index: seq<ClassInfo>, d: Object, ordinal: int, name: string)
    requires AddDocument(index, d, ordinal).Ok?
    ensures OrdinalIn(AddDocument(index, d, ordinal).value, name) != None <==>
              OrdinalIn(index, name) != None || MakesKnown(d, name)
  {
    OrdinalStep(index, d, ordinal, name);
  }

  /** A class is known exactly when some document makes it known. */
  lemma {:induction false} ClassKnownIff(docs: seq<(Object, int)>, name: string)
    requires ClassIndex(docs).Ok?
    ensures OrdinalIn(ClassIndex(docs).value, name) != None <==>
              exists k :: 0 <= k < |docs| && MakesKnown(docs[k].0, name)
  {
    if docs != [] {
      var front, last := docs[..|docs| - 1], docs[|docs| - 1];
      ClassKnownIff(front, name);
      KnownStep(ClassIndex(front).value, last.0, last.1, name);
      if k :| 0 <= k < |docs| && MakesKnown(docs[k].0, name) {
        assert k < |front| ==> MakesKnown(front[k].0, name);
      }
      if k :| 0 <= k < |front| && MakesKnown(front[k].0, name) {
        assert MakesKnown(docs[k].0, name);
      }
    }
  }

  lemma {:induction false} NotYetKnown(docs: seq<(Object, int)>, name: string)
    requires ClassIndex(docs).Ok? && forall j :: 0 <= j < |docs| ==> !MakesKnown(docs[j].0, name)
    ensures OrdinalIn(ClassIndex(docs).value, name) == None
  {
    ClassKnownIff(docs, name);
  }

  predicate IsLastClassDocument(docs: seq<(Object, int)>, name: string, k: int) {
    && 0 <= k < |docs|
    && IsClassDocument(docs[k].0, name)
    && forall j :: k < j < |docs| ==> !IsClassDocument(docs[j].0, name)
  }

  /** The ordinal of a class is that of the file of the last document that declares it. */
  lemma {:induction false} DeclaredOrdinal(docs: seq<(Object, int)>, name: string, k: int)
    requires ClassIndex(docs).Ok? && IsLastClassDocument(docs, name, k)
    ensures OrdinalIn(ClassIndex(docs).value, name) == Some(Some(docs[k].1))
    decreases |docs|
  {
    var front, last := docs[..|docs| - 1], docs[|docs| - 1];
    OrdinalStep(ClassIndex(front).value, last.0, last.1, name);
    if k < |front| {
      DeclaredOrdinal(front, name, k);
    }
  }

  /**
   A class that no document declares has ordinal 0 if a member made it known, and none if it was
   first known as an owner, in which case no table can be built.
   */
  lemma {:induction false} UndeclaredOrdinal(docs: seq<(Object, int)>, name: string, k: int)
    requires ClassIndex(docs).Ok? && forall j :: 0 <= j < |docs| ==> !IsClassDocument(docs[j].0, name)
    requires 0 <= k < |docs| && MakesKnown(docs[k].0, name)
    requires forall j :: 0 <= j < k ==> !MakesKnown(docs[j].0, name)
    ensures OrdinalIn(ClassIndex(docs).value, name) == Some(if IsMemberOf(docs[k].0, name) then Some(0) else None)
    decreases |docs|
  {
    var front, last := docs[..|docs| - 1], docs[|docs| - 1];
    OrdinalStep(ClassIndex(front).value, last.0, last.1, name);
    if k < |front| {
      UndeclaredOrdinal(front, name, k);
    } else {
      NotYetKnown(front, name);
    }
  }

  // ---------------------------------------------------------------- when indexing succeeds

  function MembersIn(index: seq<ClassInfo>, name: string): set<(string, string)> {
    if HasEntry(index, name) then index[IndexOf(index, name)].members else {}
  }

  lemma {:induction false} MembersUpdated(index: seq<ClassInfo>, i: nat, c: ClassInfo, name: string)
    requires i < |index| && i == IndexOf(index, c.name)
    ensures MembersIn(index[i := c], name) == if name == c.name then c.members else MembersIn(index, name)
  {
    SameNames(index, index[i := c], name);
  }

  lemma {:induction false} MembersEnsured(index: seq<ClassInfo>, cname: string, ordinal: Option<int>, name: string)
    ensures MembersIn(Ensured(index, cname, ordinal), name) == MembersIn(index, name)
  {
    if !HasEntry(index, cname) {
      IndexOfAppend(index, ClassInfo(cname, ordinal, {}, {}), name);
    }
  }

  /** A document is rejected exactly when its class already has a member of its kind and bare name. */
  lemma {:induction false} MemberStep(index: seq<ClassInfo>, d: Object, name: string)
    ensures AddMember(index, d).Err? <==> d.HasClass() && (d.kind, d.bareName) in MembersIn(index, d.cls.value)
    ensures AddMember(index, d).Ok? ==>
              MembersIn(AddMember(index, d).value, name) ==
              MembersIn(index, name) + (if IsMemberOf(d, name) then {(d.kind, d.bareName)} else {})
  {
    if d.HasClass() {
      var grown := Ensured(index, d.cls.value, Some(0));
      MembersEnsured(index, d.cls.value, Some(0), d.cls.value);
      MembersEnsured(index, d.cls.value, Some(0), name);
      if AddMember(index, d).Ok? {
        var i := IndexOf(grown, d.cls.value);
        MembersUpdated(grown, i, AddMember(index, d).value[i], name);
      }
    }
  }

  /**
   A class inherits exactly when its base is known and, for a base of its own namespace, has a list
   of handles; the handles of such a base become its own.
   */
  lemma {:induction false} InheritIff(index: seq<ClassInfo>, cname: string, base: string, name: string)
    requires HasEntry(index, cname)
    ensures Inherit(index, cname, base).Ok? <==>
              && HasEntry(index, base)
              && (FirstTwo(cname) == FirstTwo(base) ==>
                    cname == base || "handle" in index[IndexOf(index, base)].kinds)
    ensures Inherit(index, cname, base).Ok? ==>
              var next := Inherit(index, cname, base).value;
              && HasEntry(next, cname) && "handle" in next[IndexOf(next, cname)].kinds
              && MembersIn(next, name) ==
                 MembersIn(index, name)
                 + (if name == cname && FirstTwo(cname) == FirstTwo(base)
                    then (set m | m in MembersIn(index, base) && m.0 == "handle") else {})
  {
    if Inherit(index, cname, base).Ok? {
      var next, i := Inherit(index, cname, base).value, IndexOf(index, cname);
      SameNames(index, next, cname);
      SameNames(index, next, name);
      assert next == index[i := next[i]];
      MembersUpdated(index, i, next[i], name);
    }
  }

  lemma {:induction false} ClassStep(index: seq<ClassInfo>, d: Object, ordinal: int, name: string)
    requires d.base == None
    ensures AddClass(index, d, ordinal).Ok?
    ensures MembersIn(AddClass(index, d, ordinal).value, name) == MembersIn(index, name)
  {
    if d.kind == "class" {
      var grown := Ensured(index, d.bareName, None);
      var i := IndexOf(grown, d.bareName);
      var placed := grown[i := grown[i].(ordinal := Some(ordinal))];
      MembersEnsured(index, d.bareName, None, name);
      MembersUpdated(grown, i, placed[i], name);
      if d.owner.Some? {
        MembersEnsured(placed, d.owner.value, None, name);
      }
    }
  }

  predicate GivesMember(d: Object, name: string, m: (string, string)) {
    IsMemberOf(d, name) && (d.kind, d.bareName) == m
  }

  lemma {:induction false} DocumentStep(
      index: seq<ClassInfo>, d: Object, ordinal: int, name: string, m: (string, string))
    requires d.base == None && AddDocument(index, d, ordinal).Ok?
    ensures m in MembersIn(AddDocument(index, d, ordinal).value, name) <==>
              m in MembersIn(index, name) || GivesMember(d, name, m)
  {
    MemberStep(index, d, name);
    ClassStep(AddMember(index, d).value, d, ordinal, name);
  }

  /** Without base classes, a class has exactly the members that the documents give it. */
  lemma {:induction false} MembersAreDocuments(docs: seq<(Object, int)>, name: string, m: (string, string))
    requires ClassIndex(docs).Ok? && forall k :: 0 <= k < |docs| ==> docs[k].0.base == None
    ensures m in MembersIn(ClassIndex(docs).value, name) <==>
              exists k :: 0 <= k < |docs| && GivesMember(docs[k].0, name, m)
  {
    if docs != [] {
      var front, last := docs[..|docs| - 1], docs[|docs| - 1];
      MembersAreDocuments(front, name, m);
      DocumentStep(ClassIndex(front).value, last.0, last.1, name, m);
      if k :| 0 <= k < |docs| && GivesMember(docs[k].0, name, m) {
        assert k < |front| ==> GivesMember(front[k].0, name, m);
      }
      if k :| 0 <= k < |front| && GivesMember(front[k].0, name, m) {
        assert GivesMember(docs[k].0, name, m);
      }
    }
  }

  /** Without base classes, indexing succeeds exactly when no two documents of a class share kind and name. */
  lemma {:induction false} IndexingSucceedsIff(docs: seq<(Object, int)>)
    requires forall k :: 0 <= k < |docs| ==> docs[k].0.base == None
    ensures ClassIndex(docs).Ok? <==> NoClash(docs)
  {
    if ClassIndex(docs).Ok? {
      ClassIndexFacts(docs);
    } else {
      ClashFound(docs);
    }
  }

  lemma {:induction false} ClashFound(docs: seq<(Object, int)>)
    requires ClassIndex(docs).Err? && forall k :: 0 <= k < |docs| ==> docs[k].0.base == None
    ensures !NoClash(docs)
  {
    var front, last := docs[..|docs| - 1], docs[|docs| - 1];
    if ClassIndex(front).Err? {
      ClashFound(front);
      var i, j :| 0 <= i < j < |front| && Clash(front[i].0, front[j].0);
      assert Clash(docs[i].0, docs[j].0);
    } else {
      var index := ClassIndex(front).value;
      MemberStep(index, last.0, "");
      if AddMember(index, last.0).Ok? {
        ClassStep(AddMember(index, last.0).value, last.0, last.1, "");
      }
      MembersAreDocuments(front, last.0.cls.value, (last.0.kind, last.0.bareName));
      var k :| 0 <= k < |front| && GivesMember(front[k].0, last.0.cls.value, (last.0.kind, last.0.bareName));
      assert Clash(docs[k].0, docs[|docs| - 1].0);
    }
  }

  // ---------------------------------------------------------------- the functions of a class

  function Key(o: Object): int {
    o.major * 10000 + o.ordinal
  }

  predicate InClass(o: Object, cname: string) {
    o.IsFunction() && o.cls == Some(cname)
  }

  function Belongs(cname: string, experimental: bool): Object -> bool {
    (o: Object) => InClass(o, cname) && o.IsExperimental() == experimental
  }

  /** The regular and the experimental functions of a class, each sorted by its key. */
  method ClassFunctions(objects: seq<Object>, cname: string) returns (regular: seq<Object>, experimental: seq<Object>)
    ensures regular == Sort(Key, Filter(Belongs(cname, false), objects))
    ensures experimental == Sort(Key, Filter(Belongs(cname, true), objects))
  {
    regular, experimental := [], [];
    for i := 0 to |objects|
      invariant regular == Filter(Belongs(cname, false), objects[..i])
      invariant experimental == Filter(Belongs(cname, true), objects[..i])
    {
      var o := objects[i];
      assert objects[..i + 1] == objects[..i] + [o];
      FilterConcat(Belongs(cname, false), objects[..i], [o]);
      FilterConcat(Belongs(cname, true), objects[..i], [o]);
      assert [o][1..] == [];
      if InClass(o, cname) {
        if o.IsExperimental() {
          experimental := experimental + [o];
        } else {
          regular := regular + [o];
        }
      }
    }
    assert objects[..|objects|] == objects;
    regular := Sort(Key, regular);
    experimental := Sort(Key, experimental);
  }

  // ---------------------------------------------------------------- the tables

  datatype Table = Table(cname: string, experimental: bool, functions: seq<Object>, guard: Option<string>)

  predicate Public(o: Object) {
    !o.loaderOnly
  }

  function TableFunctions(objects: seq<Object>, cname: string, experimental: bool): seq<Object> {
    Filter(Public, Sort(Key, Filter(Belongs(cname, experimental), objects)))
  }

  /** A table is made only for a class that has functions of the sort. */
  function TableOf(objects: seq<Object>, cname: string, experimental: bool): seq<Table> {
    var fs := TableFunctions(objects, cname, experimental);
    if fs == [] then [] else [Table(cname, experimental, fs, None)]
  }

  function ClassTables(objects: seq<Object>, cname: string): seq<Table> {
    TableOf(objects, cname, false) + TableOf(objects, cname, true)
  }

  function TablesOf(objects: seq<Object>, names: seq<string>): seq<Table> {
    if names == [] then []
    else TablesOf(objects, names[..|names| - 1]) + ClassTables(objects, names[|names| - 1])
  }

  /** The guard after one more function, given the guard before. */
  function ScanOne(before: Result<Option<string>, Error>, own: Option<string>): Result<Option<string>, Error> {
    match before
    case Err(e) => Err(e)
    case Ok(guard) =>
      if own.None? then Ok(guard)
      else if guard.Some? && guard.value != "" && guard != own then Err(GuardConflict)
      else Ok(own)
  }

  /** The guard after a scan of the functions; two different guards are an error. */
  function ScanGuard(fs: seq<Object>): Result<Option<string>, Error> {
    if fs == [] then Ok(None) else ScanOne(ScanGuard(fs[..|fs| - 1]), fs[|fs| - 1].guard)
  }

  predicate AllGuarded(fs: seq<Object>) {
    forall i :: 0 <= i < |fs| ==> fs[i].guard.Some?
  }

  function Guarded(t: Table): Result<Table, Error> {
    match ScanGuard(t.functions)
    case Err(e) => Err(e)
    case Ok(guard) => Ok(if AllGuarded(t.functions) then t.(guard := guard) else t)
  }

  function GuardAll(tables: seq<Table>): Result<seq<Table>, Error> {
    if tables == [] then Ok([])
    else
      match GuardAll(tables[..|tables| - 1])
      case Err(e) => Err(e)
      case Ok(front) =>
        match Guarded(tables[|tables| - 1])
        case Err(e) => Err(e)
        case Ok(last) => Ok(front + [last])
  }

  function OrdinalOf(c: ClassInfo): int {
    if c.ordinal.Some? then c.ordinal.value else 0
  }

  predicate AllPlaced(index: seq<ClassInfo>) {
    forall i :: 0 <= i < |index| ==> index[i].ordinal.Some?
  }

  function NamesOf(index: seq<ClassInfo>): (names: seq<string>)
    ensures |names| == |index|
    ensures forall i :: 0 <= i < |index| ==> names[i] == index[i].name
  {
    seq(|index|, i requires 0 <= i < |index| => index[i].name)
  }

  function ClassNames(index: seq<ClassInfo>): seq<string> {
    NamesOf(Sort(OrdinalOf, index))
  }

  function Tables(objects: seq<Object>, index: seq<ClassInfo>): Result<seq<Table>, Error> {
    if !AllPlaced(index) then Err(MissingOrdinal)
    else GuardAll(TablesOf(objects, ClassNames(index)))
  }

  method GetPfnTables(objects: seq<Object>, index: seq<ClassInfo>) returns (r: Result<seq<Table>, Error>)
    ensures r == Tables(objects, index)
  {
    if !AllPlaced(index) {
      return Err(MissingOrdinal);
    }
    var names := NamesOf(Sort(OrdinalOf, index));
    var tables: seq<Table> := [];
    for i := 0 to |names|
      invariant tables == TablesOf(objects, names[..i])
    {
      assert names[..i + 1][..i] == names[..i];
      var more := MakeTables(objects, names[i]);
      tables := tables + more;
    }
    assert names[..|names|] == names;
    r := SetGuards(tables);
  }

  /** The tables of one class: regular functions first, then experimental ones. */
  method MakeTables(objects: seq<Object>, cname: string) returns (tables: seq<Table>)
    ensures tables == ClassTables(objects, cname)
  {
    var regular, experimental := ClassFunctions(objects, cname);
    regular := Filter(Public, regular);
    experimental := Filter(Public, experimental);
    tables := [];
    if |regular| > 0 {
      tables := tables + [Table(cname, false, regular, None)];
    }
    if |experimental| > 0 {
      tables := tables + [Table(cname, true, experimental, None)];
    }
  }

  /** The loop over the tables that checks and sets their guards. */
  method SetGuards(tables: seq<Table>) returns (r: Result<seq<Table>, Error>)
    ensures r == GuardAll(tables)
  {
    var guarded := tables;
    for i := 0 to |tables|
      invariant |guarded| == |tables|
      invariant GuardAll(tables[..i]) == Ok(guarded[..i])
      invariant forall j :: i <= j < |tables| ==> guarded[j] == tables[j]
    {
      var t := tables[i];
      ghost var front := guarded[..i];
      var guard := FindGuard(t.functions);
      assert tables[..i + 1][..i] == tables[..i];
      if guard.Err? {
        GuardFailsForGood(tables, i + 1);
        return Err(guard.error);
      }
      if AllGuarded(t.functions) {
        guarded := guarded[i := t.(guard := guard.value)];
      }
      assert guarded[..i + 1] == front + [guarded[i]];
      assert Guarded(t) == Ok(guarded[i]);
    }
    assert tables[..|tables|] == tables && guarded[..|guarded|] == guarded;
    r := Ok(guarded);
  }

  method FindGuard(fs: seq<Object>) returns (r: Result<Option<string>, Error>)
    ensures r == ScanGuard(fs)
  {
    var guard: Option<string> := None;
    for i := 0 to |fs|
      invariant ScanGuard(fs[..i]) == Ok(guard)
    {
      assert fs[..i + 1][..i] == fs[..i];
      if fs[i].guard.Some? {
        if guard.Some? && guard.value != "" && guard != fs[i].guard {
          ScanFailsForGood(fs, i + 1);
          return Err(GuardConflict);
        }
        guard := fs[i].guard;
      }
    }
    assert fs[..|fs|] == fs;
    r := Ok(guard);
  }

  lemma {:induction false} ScanFailsForGood(fs: seq<Object>, n: nat)
    requires n <= |fs| && ScanGuard(fs[..n]).Err?
    ensures ScanGuard(fs) == ScanGuard(fs[..n])
    decreases |fs|
  {
    if n < |fs| {
      assert fs[..|fs| - 1][..n] == fs[..n];
      ScanFailsForGood(fs[..|fs| - 1], n);
    } else {
      assert fs[..n] == fs;
    }
  }

  lemma {:induction false} GuardFailsForGood(tables: seq<Table>, n: nat)
    requires n <= |tables| && GuardAll(tables[..n]).Err?
    ensures GuardAll(tables) == GuardAll(tables[..n])
    decreases |tables|
  {
    if n < |tables| {
      assert tables[..|tables| - 1][..n] == tables[..n];
      GuardFailsForGood(tables[..|tables| - 1], n);
    } else {
      assert tables[..n] == tables;
    }
  }

  // ---------------------------------------------------------------- what is in a table, and in which order

  predicate IsSlotted(o: Object, cname: string, experimental: bool) {
    Public(o) && InClass(o, cname) && o.IsExperimental() == experimental
  }

  function Slotted(cname: string, experimental: bool): Object -> bool {
    (o: Object) => IsSlotted(o, cname, experimental)
  }

  lemma {:induction false} TableIsSort(objects: seq<Object>, cname: string, experimental: bool)
    ensures TableFunctions(objects, cname, experimental) == Sort(Key, Filter(Slotted(cname, experimental), objects))
  {
    FilterSort(Public, Key, Filter(Belongs(cname, experimental), objects));
    FilterTwice(Public, Belongs(cname, experimental), Slotted(cname, experimental), objects);
  }

  /** A table holds the public functions of its class and sort, stably sorted by their key. */
  lemma {:induction false} TableIsStablySorted(objects: seq<Object>, cname: string, experimental: bool, k: int)
    ensures var fs, own := TableFunctions(objects, cname, experimental), Filter(Slotted(cname, experimental), objects);
            && SortedBy(Key, fs)
            && WithKey(Key, k, fs) == WithKey(Key, k, own)
            && multiset(fs) == multiset(own)
  {
    var own := Filter(Slotted(cname, experimental), objects);
    TableIsSort(objects, cname, experimental);
    SortSorted(Key, own);
    SortMultiset(Key, own);
    SortStable(Key, own, k);
  }

  lemma {:induction false} TableMember(objects: seq<Object>, cname: string, experimental: bool, o: Object)
    ensures o in TableFunctions(objects, cname, experimental) <==>
              && o in objects && !o.loaderOnly && "function" <= o.kind && o.cls == Some(cname)
              && o.IsExperimental() == experimental
  {
    var own := Filter(Slotted(cname, experimental), objects);
    TableIsSort(objects, cname, experimental);
    SortMembers(Key, own);
    FilterMember(Slotted(cname, experimental), objects, o);
  }

  // ---------------------------------------------------------------- every function has one slot

  /** All slots of all tables. */
  function Slots(tables: seq<Table>): multiset<Object> {
    if tables == [] then multiset{}
    else Slots(tables[..|tables| - 1]) + multiset(tables[|tables| - 1].functions)
  }

  lemma {:induction false} SlotsConcat(xs: seq<Table>, ys: seq<Table>)
    ensures Slots(xs + ys) == Slots(xs) + Slots(ys)
  {
    if ys == [] {
      assert xs + ys == xs;
    } else {
      assert (xs + ys)[..|xs + ys| - 1] == xs + ys[..|ys| - 1];
      SlotsConcat(xs, ys[..|ys| - 1]);
    }
  }

  lemma {:induction false} SlotsOfTable(objects: seq<Object>, cname: string, experimental: bool)
    ensures Slots(TableOf(objects, cname, experimental)) == multiset(Filter(Slotted(cname, experimental), objects))
  {
    TableIsStablySorted(objects, cname, experimental, 0);
    var t := TableOf(objects, cname, experimental);
    if t != [] {
      assert t[..0] == [];
      assert Slots([]) == multiset{};
    }
  }

  function Eligible(names: seq<string>): Object -> bool {
    (o: Object) => o.IsFunction() && o.cls.Some? && o.cls.value in names && Public(o)
  }

  lemma {:induction false} EligibleSplit(names: seq<string>, cname: string, o: Object)
    requires cname !in names
    ensures Eligible(names + [cname])(o) <==> Eligible(names)(o) || Slotted(cname, false)(o) || Slotted(cname, true)(o)
    ensures Slotted(cname, false)(o) ==> !Slotted(cname, true)(o)
    ensures Eligible(names)(o) ==> !Slotted(cname, false)(o) && !Slotted(cname, true)(o)
  {
    assert o.cls.Some? ==> (o.cls.value in names + [cname] <==> o.cls.value in names || o.cls.value == cname);
  }

  lemma {:induction false} CountSplit(names: seq<string>, cname: string, objects: seq<Object>, o: Object)
    requires cname !in names
    ensures multiset(Filter(Eligible(names + [cname]), objects))[o] ==
            multiset(Filter(Eligible(names), objects))[o]
            + multiset(Filter(Slotted(cname, false), objects))[o]
            + multiset(Filter(Slotted(cname, true), objects))[o]
  {
    FilterCount(Eligible(names + [cname]), objects, o);
    FilterCount(Eligible(names), objects, o);
    FilterCount(Slotted(cname, false), objects, o);
    FilterCount(Slotted(cname, true), objects, o);
    EligibleSplit(names, cname, o);
  }

  lemma {:induction false} MultisetSplit(names: seq<string>, cname: string, objects: seq<Object>)
    requires cname !in names
    ensures multiset(Filter(Eligible(names + [cname]), objects)) ==
            multiset(Filter(Eligible(names), objects))
            + multiset(Filter(Slotted(cname, false), objects))
            + multiset(Filter(Slotted(cname, true), objects))
  {
    var all := multiset(Filter(Eligible(names + [cname]), objects));
    var old', regular, experimental :=
      multiset(Filter(Eligible(names), objects)),
      multiset(Filter(Slotted(cname, false), objects)),
      multiset(Filter(Slotted(cname, true), objects));
    forall o
      ensures all[o] == (old' + regular + experimental)[o]
    {
      CountSplit(names, cname, objects, o);
    }
  }

  /** The slots of the tables are exactly the public functions of the classes, with multiplicity. */
  lemma {:induction false} SlotsAreFunctions(objects: seq<Object>, names: seq<string>)
    requires Distinct(names)
    ensures Slots(TablesOf(objects, names)) == multiset(Filter(Eligible(names), objects))
  {
    if names == [] {
      FilterNone(Eligible(names), objects);
    } else {
      var front, last := names[..|names| - 1], names[|names| - 1];
      assert names == front + [last];
      SlotsAreFunctions(objects, front);
      SlotsConcat(TablesOf(objects, front), ClassTables(objects, last));
      SlotsConcat(TableOf(objects, last, false), TableOf(objects, last, true));
      SlotsOfTable(objects, last, false);
      SlotsOfTable(objects, last, true);
      MultisetSplit(front, last, objects);
    }
  }

  predicate SameFunctions(t: Table, u: Table) {
    t.cname == u.cname && t.experimental == u.experimental && t.functions == u.functions
  }

  lemma GuardedSame(t: Table)
    requires Guarded(t).Ok?
    ensures SameFunctions(t, Guarded(t).value)
  {
  }

  /** Setting the guards changes nothing else. */
  lemma {:induction false} GuardsOnly(tables: seq<Table>, i: nat)
    requires GuardAll(tables).Ok? && i < |tables|
    ensures |GuardAll(tables).value| == |tables|
    ensures Guarded(tables[i]) == Ok(GuardAll(tables).value[i])
  {
    var front := tables[..|tables| - 1];
    if i < |front| {
      GuardsOnly(front, i);
      assert front[i] == tables[i];
    } else if front != [] {
      GuardsOnly(front, 0);
    }
  }

  lemma {:induction false} GuardsKeepSlots(tables: seq<Table>)
    requires GuardAll(tables).Ok?
    ensures Slots(GuardAll(tables).value) == Slots(tables)
  {
    if tables != [] {
      var front, last := tables[..|tables| - 1], tables[|tables| - 1];
      GuardsKeepSlots(front);
      GuardedSame(last);
      var guarded := GuardAll(front).value;
      assert (guarded + [Guarded(last).value])[..|guarded|] == guarded;
    }
  }

  lemma {:induction false} InsertKeepsDistinct(c: ClassInfo, index: seq<ClassInfo>)
    requires DistinctClasses(index) && forall k :: 0 <= k < |index| ==> index[k].name != c.name
    ensures DistinctClasses(Insert(OrdinalOf, c, index))
  {
    if !(index == [] || OrdinalOf(c) <= OrdinalOf(index[0])) {
      InsertKeepsDistinct(c, index[1..]);
      InsertMultiset(OrdinalOf, c, index[1..]);
      var rest := Insert(OrdinalOf, c, index[1..]);
      forall k | 0 <= k < |rest|
        ensures rest[k].name != index[0].name
      {
        assert rest[k] in multiset(rest);
      }
    }
  }

  lemma {:induction false} SortKeepsDistinct(index: seq<ClassInfo>)
    requires DistinctClasses(index)
    ensures DistinctClasses(Sort(OrdinalOf, index))
  {
    if index != [] {
      SortKeepsDistinct(index[1..]);
      SortMembers(OrdinalOf, index[1..]);
      forall k | 0 <= k < |Sort(OrdinalOf, index[1..])|
        ensures Sort(OrdinalOf, index[1..])[k].name != index[0].name
      {
        assert Sort(OrdinalOf, index[1..])[k] in index[1..];
      }
      InsertKeepsDistinct(index[0], Sort(OrdinalOf, index[1..]));
    }
  }

  lemma {:induction false} ClassNamesFacts(index: seq<ClassInfo>)
    requires DistinctClasses(index)
    ensures Distinct(ClassNames(index))
    ensures forall k :: 0 <= k < |index| ==> index[k].name in ClassNames(index)
  {
    SortKeepsDistinct(index);
    SortMembers(OrdinalOf, index);
    forall k | 0 <= k < |index|
      ensures index[k].name in ClassNames(index)
    {
      assert index[k] in Sort(OrdinalOf, index);
      var j :| 0 <= j < |Sort(OrdinalOf, index)| && Sort(OrdinalOf, index)[j] == index[k];
      assert ClassNames(index)[j] == index[k].name;
    }
  }

  function Objects(docs: seq<(Object, int)>): (objects: seq<Object>)
    ensures |objects| == |docs|
    ensures forall i :: 0 <= i < |docs| ==> objects[i] == docs[i].0
  {
    seq(|docs|, i requires 0 <= i < |docs| => docs[i].0)
  }

  // ---------------------------------------------------------------- files in order of their ordinals

  /** One file: the ordinal of its header, and its documents with the ordinal in force at each. */
  datatype Spec = Spec(ordinal: int, docs: seq<(Object, int)>)

  function SpecOrdinal(s: Spec): int {
    s.ordinal
  }

  /** All documents in the order of the files, which is the order in which they are indexed. */
  function Documents(specs: seq<Spec>): seq<(Object, int)> {
    if specs == [] then [] else specs[0].docs + Documents(specs[1..])
  }

  /** All objects in the order that the table builder sees: files are sorted by ordinal after indexing. */
  function SortedObjects(specs: seq<Spec>): seq<Object> {
    Objects(Documents(Sort(SpecOrdinal, specs)))
  }

  lemma {:induction false} ObjectsConcat(xs: seq<(Object, int)>, ys: seq<(Object, int)>)
    ensures Objects(xs + ys) == Objects(xs) + Objects(ys)
  {
  }

  lemma {:induction false} FirstDocuments(s: Spec, specs: seq<Spec>)
    ensures multiset(Objects(Documents([s] + specs))) == multiset(Objects(s.docs)) + multiset(Objects(Documents(specs)))
  {
    assert ([s] + specs)[1..] == specs;
    ObjectsConcat(s.docs, Documents(specs));
  }

  lemma {:induction false} InsertDocuments(s: Spec, specs: seq<Spec>)
    ensures multiset(Objects(Documents(Insert(SpecOrdinal, s, specs)))) ==
            multiset(Objects(s.docs)) + multiset(Objects(Documents(specs)))
  {
    FirstDocuments(s, specs);
    if !(specs == [] || s.ordinal <= specs[0].ordinal) {
      InsertDocuments(s, specs[1..]);
      FirstDocuments(specs[0], specs[1..]);
      FirstDocuments(specs[0], Insert(SpecOrdinal, s, specs[1..]));
      assert [specs[0]] + specs[1..] == specs;
    }
  }

  /** Sorting the files moves objects but neither loses nor repeats one. */
  lemma {:induction false} SortedIsPermutation(specs: seq<Spec>)
    ensures multiset(SortedObjects(specs)) == multiset(Objects(Documents(specs)))
  {
    if specs != [] {
      SortedIsPermutation(specs[1..]);
      InsertDocuments(specs[0], Sort(SpecOrdinal, specs[1..]));
      FirstDocuments(specs[0], specs[1..]);
      assert [specs[0]] + specs[1..] == specs;
    }
  }

  lemma {:induction false} CountOnce<T>(xs: seq<T>, i: nat)
    requires i < |xs| && forall j :: 0 <= j < |xs| && j != i ==> xs[j] != xs[i]
    ensures multiset(xs)[xs[i]] == 1
  {
    assert xs == xs[..i] + [xs[i]] + xs[i + 1..];
    assert xs[i] !in xs[..i] && xs[i] !in xs[i + 1..];
  }

  /** A document with a class occurs once. */
  lemma {:induction false} OccursOnce(docs: seq<(Object, int)>, i: nat)
    requires NoClash(docs) && i < |docs| && docs[i].0.HasClass()
    ensures multiset(Objects(docs))[docs[i].0] == 1
  {
    forall j | 0 <= j < |docs| && j != i
      ensures Objects(docs)[j] != Objects(docs)[i]
    {
      assert !Clash(docs[if i < j then i else j].0, docs[if i < j then j else i].0);
    }
    CountOnce(Objects(docs), i);
  }

  lemma {:induction false} ClassIsNamed(index: seq<ClassInfo>, o: Object)
    requires DistinctClasses(index) && Indexed(index, o) && o.HasClass()
    ensures o.cls.value in ClassNames(index)
  {
    ClassNamesFacts(index);
    var k :| 0 <= k < |index| && index[k].name == o.cls.value && (o.kind, o.bareName) in index[k].members;
  }

  /** The class index follows the order of the files, and the tables the order of their ordinals. */
  ghost predicate Built(specs: seq<Spec>, tables: seq<Table>) {
    && ClassIndex(Documents(specs)).Ok?
    && Tables(SortedObjects(specs), ClassIndex(Documents(specs)).value) == Ok(tables)
  }

  /** Exactly one slot over all tables belongs to each public function with a class. */
  lemma {:induction false} OneSlotPerFunction(specs: seq<Spec>, tables: seq<Table>, i: nat)
    requires Built(specs, tables) && i < |Documents(specs)|
    requires var o := Documents(specs)[i].0; o.IsFunction() && o.HasClass() && Public(o)
    ensures Slots(tables)[Documents(specs)[i].0] == 1
  {
    var docs := Documents(specs);
    var objects, index, o := SortedObjects(specs), ClassIndex(docs).value, docs[i].0;
    var names := ClassNames(index);
    SortedIsPermutation(specs);
    ClassIndexFacts(docs);
    ClassNamesFacts(index);
    ClassIsNamed(index, o);
    OccursOnce(docs, i);
    FilterCount(Eligible(names), objects, o);
    SlotsAreFunctions(objects, names);
    GuardsKeepSlots(TablesOf(objects, names));
  }

  /** A table of the class and sort, before its guard is set. */
  predicate IsTableOf(objects: seq<Object>, t: Table) {
    t.functions != [] && t.guard == None && t.functions == TableFunctions(objects, t.cname, t.experimental)
  }

  lemma {:induction false} ClassTablesHold(objects: seq<Object>, cname: string, n: nat)
    requires n < |ClassTables(objects, cname)|
    ensures var t := ClassTables(objects, cname)[n];
            t.cname == cname && IsTableOf(objects, t)
    ensures n > 0 ==> ClassTables(objects, cname)[n].experimental && !ClassTables(objects, cname)[0].experimental
    ensures n <= 1
  {
    var regular := TableOf(objects, cname, false);
    var t := if n < |regular| then regular[n] else TableOf(objects, cname, true)[n - |regular|];
    assert ClassTables(objects, cname)[n] == t;
  }

  /** Conversely, a slot is only ever given to a public function of the table's class and sort. */
  lemma {:induction false} TablesHold(objects: seq<Object>, names: seq<string>, n: nat)
    requires n < |TablesOf(objects, names)|
    ensures TablesOf(objects, names)[n].cname in names && IsTableOf(objects, TablesOf(objects, names)[n])
  {
    var front, last := names[..|names| - 1], names[|names| - 1];
    var before := TablesOf(objects, front);
    if n < |before| {
      TablesHold(objects, front, n);
      assert TablesOf(objects, names)[n] == before[n];
    } else {
      ClassTablesHold(objects, last, n - |before|);
      assert TablesOf(objects, names)[n] == ClassTables(objects, last)[n - |before|];
    }
  }

  /** No two tables are for the same class and sort. */
  lemma {:induction false} TablesDiffer(objects: seq<Object>, names: seq<string>, m: nat, n: nat)
    requires Distinct(names) && m < n < |TablesOf(objects, names)|
    ensures var s, t := TablesOf(objects, names)[m], TablesOf(objects, names)[n];
            s.cname != t.cname || s.experimental != t.experimental
  {
    var front, last := names[..|names| - 1], names[|names| - 1];
    var before := TablesOf(objects, front);
    if n < |before| {
      TablesDiffer(objects, front, m, n);
    } else {
      ClassTablesHold(objects, last, n - |before|);
      if m < |before| {
        TablesHold(objects, front, m);
      }
    }
  }

  /** Tables follow the order of their classes; the regular table of a class comes first. */
  lemma {:induction false} TablesInOrder(
      objects: seq<Object>, names: seq<string>, m: nat, n: nat)
    returns (i: nat, j: nat)
    requires m < n < |TablesOf(objects, names)|
    ensures i <= j < |names|
    ensures names[i] == TablesOf(objects, names)[m].cname && names[j] == TablesOf(objects, names)[n].cname
    ensures i == j ==> !TablesOf(objects, names)[m].experimental && TablesOf(objects, names)[n].experimental
  {
    var front, last := names[..|names| - 1], names[|names| - 1];
    var before := TablesOf(objects, front);
    if n < |before| {
      i, j := TablesInOrder(objects, front, m, n);
    } else {
      j := |names| - 1;
      ClassTablesHold(objects, last, n - |before|);
      if m < |before| {
        TablesHold(objects, front, m);
        i :| 0 <= i < |front| && front[i] == before[m].cname;
      } else {
        i := j;
        ClassTablesHold(objects, last, m - |before|);
      }
    }
  }

  /** The classes are visited by increasing ordinal. */
  lemma {:induction false} ClassesByOrdinal(index: seq<ClassInfo>)
    ensures SortedBy(OrdinalOf, Sort(OrdinalOf, index)) && multiset(Sort(OrdinalOf, index)) == multiset(index)
  {
    SortSorted(OrdinalOf, index);
    SortMultiset(OrdinalOf, index);
  }

  lemma {:induction false} OrdinalOfEntry(index: seq<ClassInfo>, k: nat)
    requires DistinctClasses(index) && k < |index|
    ensures OrdinalIn(index, index[k].name) == Some(index[k].ordinal)
  {
    assert IndexOf(index, index[k].name) == k;
  }

  /** Sorted by ordinal, a class never comes before one with a smaller ordinal. */
  lemma {:induction false} NamesByOrdinal(index: seq<ClassInfo>, i: nat, j: nat)
    requires DistinctClasses(index) && AllPlaced(index) && i <= j < |ClassNames(index)|
    ensures var a, b := OrdinalIn(index, ClassNames(index)[i]), OrdinalIn(index, ClassNames(index)[j]);
            a.Some? && a.value.Some? && b.Some? && b.value.Some? && a.value.value <= b.value.value
  {
    var sorted := Sort(OrdinalOf, index);
    SortSorted(OrdinalOf, index);
    SortMembers(OrdinalOf, index);
    assert sorted[i] in sorted && sorted[j] in sorted;
    var k :| 0 <= k < |index| && index[k] == sorted[i];
    var l :| 0 <= l < |index| && index[l] == sorted[j];
    OrdinalOfEntry(index, k);
    OrdinalOfEntry(index, l);
    assert i < j ==> OrdinalOf(sorted[i]) <= OrdinalOf(sorted[j]);
  }

  /** Finished tables follow the ordinals of the files that declare their classes, the regular table first. */
  lemma {:induction false} BuiltInOrder(specs: seq<Spec>, tables: seq<Table>, m: nat, n: nat, k: int, l: int)
    requires Built(specs, tables) && m < n < |tables|
    requires IsLastClassDocument(Documents(specs), tables[m].cname, k)
    requires IsLastClassDocument(Documents(specs), tables[n].cname, l)
    ensures Documents(specs)[k].1 <= Documents(specs)[l].1
    ensures tables[m].cname == tables[n].cname ==> !tables[m].experimental && tables[n].experimental
  {
    var docs := Documents(specs);
    var index := ClassIndex(docs).value;
    var names := ClassNames(index);
    BuiltTable(specs, tables, m);
    BuiltTable(specs, tables, n);
    ClassIndexFacts(docs);
    ClassNamesFacts(index);
    var i, j := TablesInOrder(SortedObjects(specs), names, m, n);
    NamesByOrdinal(index, i, j);
    DeclaredOrdinal(docs, tables[m].cname, k);
    DeclaredOrdinal(docs, tables[n].cname, l);
  }

  lemma {:induction false} SlotSomewhere(tables: seq<Table>, o: Object) returns (t: nat)
    requires o in Slots(tables)
    ensures t < |tables| && o in tables[t].functions
  {
    var last := |tables| - 1;
    if o in tables[last].functions {
      t := last;
    } else {
      t := SlotSomewhere(tables[..last], o);
    }
  }

  lemma {:induction false} SlotsAtLeast(tables: seq<Table>, t: nat, o: Object)
    requires t < |tables|
    ensures multiset(tables[t].functions)[o] <= Slots(tables)[o]
  {
    if t < |tables| - 1 {
      SlotsAtLeast(tables[..|tables| - 1], t, o);
    }
  }

  lemma {:induction false} BuiltTable(specs: seq<Spec>, tables: seq<Table>, t: nat)
    requires Built(specs, tables) && t < |tables|
    ensures var raw := TablesOf(SortedObjects(specs), ClassNames(ClassIndex(Documents(specs)).value));
            |raw| == |tables| && SameFunctions(raw[t], tables[t]) && Guarded(raw[t]) == Ok(tables[t])
    ensures tables[t].functions != []
    ensures tables[t].functions == TableFunctions(SortedObjects(specs), tables[t].cname, tables[t].experimental)
  {
    var objects, names := SortedObjects(specs), ClassNames(ClassIndex(Documents(specs)).value);
    var raw := TablesOf(objects, names);
    GuardLength(raw);
    GuardsOnly(raw, t);
    GuardedSame(raw[t]);
    TablesHold(objects, names, t);
  }

  lemma {:induction false} GuardLength(tables: seq<Table>)
    requires GuardAll(tables).Ok?
    ensures |GuardAll(tables).value| == |tables|
  {
    if tables != [] {
      GuardLength(tables[..|tables| - 1]);
    }
  }

  /** A function that is in two tables is in one. */
  lemma {:induction false} SameTable(specs: seq<Spec>, tables: seq<Table>, o: Object, t: nat, u: nat)
    requires Built(specs, tables) && t < u < |tables|
    ensures !(o in tables[t].functions && o in tables[u].functions)
  {
    var objects, index := SortedObjects(specs), ClassIndex(Documents(specs)).value;
    BuiltTable(specs, tables, t);
    BuiltTable(specs, tables, u);
    ClassIndexFacts(Documents(specs));
    ClassNamesFacts(index);
    TablesDiffer(objects, ClassNames(index), t, u);
    TableMember(objects, tables[t].cname, tables[t].experimental, o);
    TableMember(objects, tables[u].cname, tables[u].experimental, o);
  }

  lemma {:induction false} ExperimentalIff(o: Object)
    ensures o.IsExperimental() <==> exists stem :: o.name == stem + "Exp"
  {
    var n := |o.name|;
    if o.IsExperimental() {
      assert o.name == o.name[..n - 3] + "Exp";
    }
    if stem :| o.name == stem + "Exp" {
      assert o.name[n - 3..] == "Exp";
    }
  }

  /** Conversely, a slot holds a function of the table's class and sort that the loader does not keep. */
  lemma {:induction false} SlotHolds(specs: seq<Spec>, tables: seq<Table>, t: nat, s: nat)
    requires Built(specs, tables) && t < |tables| && s < |tables[t].functions|
    ensures var o := tables[t].functions[s];
            && o in Objects(Documents(specs))
            && "function" <= o.kind && !o.loaderOnly && o.cls == Some(tables[t].cname)
            && (tables[t].experimental <==> exists stem :: o.name == stem + "Exp")
  {
    var o := tables[t].functions[s];
    BuiltTable(specs, tables, t);
    TableMember(SortedObjects(specs), tables[t].cname, tables[t].experimental, o);
    ExperimentalIff(o);
    SortedIsPermutation(specs);
    assert o in multiset(SortedObjects(specs));
  }

  /** The functions of a finished table are ordered by major version first, then by ordinal. */
  lemma {:induction false} SlotsInOrder(specs: seq<Spec>, tables: seq<Table>, t: nat, i: nat, j: nat)
    requires Built(specs, tables) && t < |tables| && i < j < |tables[t].functions|
    ensures var f, g := tables[t].functions[i], tables[t].functions[j];
            f.major * 10000 + f.ordinal <= g.major * 10000 + g.ordinal
  {
    var fs := tables[t].functions;
    BuiltTable(specs, tables, t);
    TableIsStablySorted(SortedObjects(specs), tables[t].cname, tables[t].experimental, 0);
    assert Key(fs[i]) <= Key(fs[j]);
    KeyIs(fs[i]);
    KeyIs(fs[j]);
  }

  lemma KeyIs(o: Object)
    ensures Key(o) == o.major * 10000 + o.ordinal
  {
  }

  /** Every public function with a class sits in exactly one slot of exactly one table. */
  lemma {:induction false} UniqueSlot(specs: seq<Spec>, tables: seq<Table>, o: Object) returns (t: nat, s: nat)
    requires Built(specs, tables)
    requires o in Objects(Documents(specs)) && "function" <= o.kind && !o.loaderOnly
    requires o.cls.Some? && o.cls.value != ""
    ensures t < |tables| && s < |tables[t].functions| && tables[t].functions[s] == o
    ensures tables[t].cname == o.cls.value
    ensures tables[t].experimental <==> exists stem :: o.name == stem + "Exp"
    ensures forall u, v :: 0 <= u < |tables| && 0 <= v < |tables[u].functions| && tables[u].functions[v] == o ==>
                             u == t && v == s
  {
    var i :| 0 <= i < |Documents(specs)| && Documents(specs)[i].0 == o;
    OneSlotPerFunction(specs, tables, i);
    t := SlotSomewhere(tables, o);
    s :| 0 <= s < |tables[t].functions| && tables[t].functions[s] == o;
    BuiltTable(specs, tables, t);
    TableMember(SortedObjects(specs), tables[t].cname, tables[t].experimental, o);
    SlotsAtLeast(tables, t, o);
    ExperimentalIff(o);
    forall u, v | 0 <= u < |tables| && 0 <= v < |tables[u].functions| && tables[u].functions[v] == o
      ensures u == t && v == s
    {
      if u < t {
        SameTable(specs, tables, o, u, t);
      } else if t < u {
        SameTable(specs, tables, o, t, u);
      } else if v < s {
        CountTwo(tables[t].functions, v, s);
      } else if s < v {
        CountTwo(tables[t].functions, s, v);
      }
    }
  }

  // ---------------------------------------------------------------- guards

  /** Guards that pass validation start with a capital letter, so they are not empty. */
  predicate ValidGuards(fs: seq<Object>) {
    forall i :: 0 <= i < |fs| && fs[i].guard.Some? ==> fs[i].guard.value != ""
  }

  predicate GuardsAgree(fs: seq<Object>) {
    forall i, j :: 0 <= i < j < |fs| && fs[i].guard.Some? && fs[j].guard.Some? ==> fs[i].guard == fs[j].guard
  }

  /** A result of a scan that is right about the functions scanned. */
  predicate ScanRight(fs: seq<Object>, r: Result<Option<string>, Error>) {
    && (r.Ok? <==> GuardsAgree(fs))
    && (r.Ok? ==> forall i :: 0 <= i < |fs| && fs[i].guard.Some? ==> fs[i].guard == r.value)
    && (r.Ok? && r.value.Some? ==> exists i :: 0 <= i < |fs| && fs[i].guard == r.value)
  }

  lemma {:induction false} GuardsAgreeAppend(front: seq<Object>, o: Object)
    ensures GuardsAgree(front + [o]) <==>
              && GuardsAgree(front)
              && forall i :: 0 <= i < |front| && front[i].guard.Some? && o.guard.Some? ==> front[i].guard == o.guard
  {
    var fs := front + [o];
    if GuardsAgree(fs) {
      forall i, j | 0 <= i < j < |front| && front[i].guard.Some? && front[j].guard.Some?
        ensures front[i].guard == front[j].guard
      {
        assert fs[i] == front[i] && fs[j] == front[j];
      }
      forall i | 0 <= i < |front| && front[i].guard.Some? && o.guard.Some?
        ensures front[i].guard == o.guard
      {
        assert fs[i] == front[i] && fs[|front|] == o;
      }
    }
  }

  lemma {:induction false} ScanAppend(front: seq<Object>, o: Object)
    ensures ScanGuard(front + [o]) == ScanOne(ScanGuard(front), o.guard)
  {
    var fs := front + [o];
    assert fs[..|fs| - 1] == front && fs[|fs| - 1] == o;
  }

  lemma {:induction false} ScanRightAppend(
      front: seq<Object>, o: Object, before: Result<Option<string>, Error>, after: Result<Option<string>, Error>)
    requires ScanRight(front, before) && ValidGuards(front) && after == ScanOne(before, o.guard)
    ensures ScanRight(front + [o], after)
  {
    var fs := front + [o];
    GuardsAgreeAppend(front, o);
    assert fs[|front|] == o;
    if before.Ok? && before.value.Some? {
      var k :| 0 <= k < |front| && front[k].guard == before.value;
      assert fs[k].guard == before.value && front[k].guard.value != "";
    }
    forall i | 0 <= i < |fs| && after.Ok? && fs[i].guard.Some?
      ensures fs[i].guard == after.value
    {
      if i < |front| {
        assert front[i].guard == before.value;
      }
    }
  }

  /** The scan succeeds exactly when all guards agree, and then finds their common value. */
  lemma {:induction false} ScanGuardFacts(fs: seq<Object>)
    requires ValidGuards(fs)
    ensures ScanRight(fs, ScanGuard(fs))
  {
    if fs != [] {
      var front, last := fs[..|fs| - 1], fs[|fs| - 1];
      assert fs == front + [last];
      ScanGuardFacts(front);
      ScanAppend(front, last);
      ScanRightAppend(front, last, ScanGuard(front), ScanGuard(fs));
    }
  }

  /** In a finished table the guards agree, and it has a guard exactly when all its functions do. */
  lemma {:induction false} TableGuard(specs: seq<Spec>, tables: seq<Table>, t: nat)
    requires Built(specs, tables) && t < |tables| && ValidGuards(Objects(Documents(specs)))
    ensures GuardsAgree(tables[t].functions)
    ensures tables[t].guard.Some? <==> AllGuarded(tables[t].functions)
    ensures tables[t].guard.Some? ==>
              forall i :: 0 <= i < |tables[t].functions| ==> tables[t].functions[i].guard == tables[t].guard
  {
    var objects, fs := SortedObjects(specs), tables[t].functions;
    SortedGuardsValid(specs);
    BuiltTable(specs, tables, t);
    TablesHold(objects, ClassNames(ClassIndex(Documents(specs)).value), t);
    TableGuardsValid(objects, tables[t].cname, tables[t].experimental);
    ScanGuardFacts(fs);
    if AllGuarded(fs) {
      assert fs[0].guard.Some?;
    }
  }

  lemma {:induction false} SortedGuardsValid(specs: seq<Spec>)
    requires ValidGuards(Objects(Documents(specs)))
    ensures ValidGuards(SortedObjects(specs))
  {
    var objects, sorted := Objects(Documents(specs)), SortedObjects(specs);
    SortedIsPermutation(specs);
    forall i | 0 <= i < |sorted| && sorted[i].guard.Some?
      ensures sorted[i].guard.value != ""
    {
      assert sorted[i] in multiset(sorted);
      assert sorted[i] in objects;
      var k :| 0 <= k < |objects| && objects[k] == sorted[i];
    }
  }

  lemma {:induction false} TableGuardsValid(objects: seq<Object>, cname: string, experimental: bool)
    requires ValidGuards(objects)
    ensures ValidGuards(TableFunctions(objects, cname, experimental))
  {
    var fs := TableFunctions(objects, cname, experimental);
    forall i | 0 <= i < |fs| && fs[i].guard.Some?
      ensures fs[i].guard.value != ""
    {
      TableMember(objects, cname, experimental, fs[i]);
      assert fs[i] in objects;
      var k :| 0 <= k < |objects| && objects[k] == fs[i];
    }
  }

  lemma {:induction false} GuardAllSucceeds(tables: seq<Table>)
    ensures GuardAll(tables).Ok? <==> forall t :: 0 <= t < |tables| ==> Guarded(tables[t]).Ok?
  {
    if tables != [] {
      var front := tables[..|tables| - 1];
      GuardAllSucceeds(front);
      assert forall t :: 0 <= t < |front| ==> front[t] == tables[t];
    }
  }

  lemma {:induction false} GuardedIff(objects: seq<Object>, names: seq<string>, t: nat)
    requires ValidGuards(objects) && t < |TablesOf(objects, names)|
    ensures var table := TablesOf(objects, names)[t];
            Guarded(table).Ok? <==> GuardsAgree(table.functions)
  {
    var table := TablesOf(objects, names)[t];
    TablesHold(objects, names, t);
    TableGuardsValid(objects, table.cname, table.experimental);
    ScanGuardFacts(table.functions);
    assert Guarded(table).Ok? <==> ScanGuard(table.functions).Ok?;
  }

  /** Building succeeds exactly when every class is placed and the guards of every table agree. */
  lemma {:induction false} BuildingSucceedsIff(objects: seq<Object>, index: seq<ClassInfo>)
    requires ValidGuards(objects)
    ensures Tables(objects, index).Ok? <==>
              && AllPlaced(index)
              && forall t :: 0 <= t < |TablesOf(objects, ClassNames(index))| ==>
                   GuardsAgree(TablesOf(objects, ClassNames(index))[t].functions)
  {
    var names := ClassNames(index);
    var raw := TablesOf(objects, names);
    GuardAllSucceeds(raw);
    if GuardAll(raw).Ok? {
      forall t | 0 <= t < |raw|
        ensures GuardsAgree(raw[t].functions)
      {
        assert Guarded(raw[t]).Ok?;
        GuardedIff(objects, names, t);
      }
    }
    if forall t :: 0 <= t < |raw| ==> GuardsAgree(raw[t].functions) {
      forall t | 0 <= t < |raw|
        ensures Guarded(raw[t]).Ok?
      {
        assert GuardsAgree(raw[t].functions);
        GuardedIff(objects, names, t);
      }
    }
  }
}
