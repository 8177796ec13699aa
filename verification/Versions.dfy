/** Versions of parameters and members: validation of their order and filtering by version. */
module Versions {
  import opened Prelude

  datatype Version = Version(major: nat, minor: nat) {

    /** `<`; the other comparisons follow from it and equality. */
    predicate Less(other: Version) {
      major < other.major || (major == other.major && minor < other.minor)
    }

    predicate AtMost(other: Version) {
      Less(other) || this == other
    }
  }

  const DEFAULT_VERSION := Version(0, 12)

  /** A description: a text, or a text per version. */
  datatype Desc = Text(text: string) | PerVersion(texts: seq<(Version, string)>)

  /** A parameter or a member, with the version it declares, if any. */
  datatype Item = Item(name: string, version: Option<Version>, desc: Option<Desc>)

  datatype Document = Document(version: Version, desc: Option<Desc>, items: seq<Item>)

  lemma VersionsAreTotallyOrdered(a: Version, b: Version, c: Version)
    ensures a.AtMost(a) && (a.AtMost(b) || b.AtMost(a))
    ensures a.AtMost(b) && b.AtMost(a) ==> a == b
    ensures a.AtMost(b) && b.AtMost(c) ==> a.AtMost(c)
    ensures a.Less(b) <==> !b.AtMost(a)
  {
  }

  /** The major number decides; only among equal ones does the minor number. */
  lemma MajorDecides(a: Version, b: Version)
    ensures a.major < b.major ==> a.Less(b) && !b.AtMost(a)
    ensures a.major == b.major ==> (a.Less(b) <==> a.minor < b.minor) && (a.AtMost(b) <==> a.minor <= b.minor)
  {
  }

  function VersionOr(item: Item, default: Version): Version {
    if item.version.Some? then item.version.value else default
  }

  // ---------------------------------------------------------------- validation

  /** Versions do not decrease; an item without one has the version of its document. */
  predicate Accepted(docVersion: Version, items: seq<Item>) {
    && (forall i :: 0 <= i < |items| ==> docVersion.AtMost(VersionOr(items[i], docVersion)))
    && (forall i, j :: 0 <= i < j < |items| ==>
          VersionOr(items[i], docVersion).AtMost(VersionOr(items[j], docVersion)))
  }

  /** The version part of the loops over parameters and members. */
  method ValidateVersions(docVersion: Version, items: seq<Item>) returns (ok: bool)
    ensures ok <==> Accepted(docVersion, items)
  {
    var maxVer := docVersion;
    for i := 0 to |items|
      invariant Accepted(docVersion, items[..i])
      invariant docVersion.AtMost(maxVer)
      invariant maxVer == if i == 0 then docVersion else VersionOr(items[i - 1], docVersion)
    {
      var ver := VersionOr(items[i], docVersion);
      if ver.Less(maxVer) {
        return false;
      }
      AcceptedMore(docVersion, items, i);
      maxVer := ver;
    }
    assert items[..|items|] == items;
    ok := true;
  }

  lemma {:induction false} AcceptedMore(docVersion: Version, items: seq<Item>, i: nat)
    requires i < |items| && Accepted(docVersion, items[..i])
    requires var before := if i == 0 then docVersion else VersionOr(items[i - 1], docVersion);
             docVersion.AtMost(before) && before.AtMost(VersionOr(items[i], docVersion))
    ensures Accepted(docVersion, items[..i + 1])
  {
    var front, all := items[..i], items[..i + 1];
    forall k, l | 0 <= k < l < |all|
      ensures VersionOr(all[k], docVersion).AtMost(VersionOr(all[l], docVersion))
    {
      if l < i {
        assert all[k] == front[k] && all[l] == front[l];
      } else if k < i - 1 {
        assert VersionOr(front[k], docVersion).AtMost(VersionOr(front[i - 1], docVersion));
        assert all[k] == front[k] && all[i - 1] == front[i - 1];
      }
    }
    forall k | 0 <= k < |all|
      ensures docVersion.AtMost(VersionOr(all[k], docVersion))
    {
      if k < i {
        assert all[k] == front[k];
      }
    }
  }

  // ---------------------------------------------------------------- filtering

  /** The filter takes an item without a version to have the default one. */
  predicate Keeps(maxVer: Version, item: Item) {
    VersionOr(item, DEFAULT_VERSION).AtMost(maxVer)
  }

  function Keeping(maxVer: Version): Item -> bool {
    (item: Item) => Keeps(maxVer, item)
  }

  function Kept(maxVer: Version, items: seq<Item>): seq<Item> {
    Filter(Keeping(maxVer), items)
  }

  /** The last text whose version is admitted. */
  function LastAdmitted(maxVer: Version, texts: seq<(Version, string)>): Option<string> {
    if texts == [] then None
    else if texts[|texts| - 1].0.AtMost(maxVer) then Some(texts[|texts| - 1].1)
    else LastAdmitted(maxVer, texts[..|texts| - 1])
  }

  /** A description per version is replaced by one text, if one is admitted. */
  function Resolved(maxVer: Version, desc: Option<Desc>): Option<Desc> {
    match desc
    case Some(PerVersion(texts)) =>
      var last := LastAdmitted(maxVer, texts);
      if last.Some? then Some(Text(last.value)) else desc
    case _ => desc
  }

  function AllResolved(maxVer: Version, items: seq<Item>): (resolved: seq<Item>)
    ensures |resolved| == |items|
    ensures forall i :: 0 <= i < |items| ==> resolved[i] == items[i].(desc := Resolved(maxVer, items[i].desc))
  {
    seq(|items|, i requires 0 <= i < |items| => items[i].(desc := Resolved(maxVer, items[i].desc)))
  }

  /** The whole document is dropped when it is newer than the requested version. */
  method FilterVersion(doc: Document, maxVer: Version) returns (r: Option<Document>)
    ensures r == if maxVer.Less(doc.version) then None
                 else Some(Document(doc.version, Resolved(maxVer, doc.desc),
                                    AllResolved(maxVer, Kept(maxVer, doc.items))))
  {
    if maxVer.Less(doc.version) {
      return None;
    }
    var flt: seq<Item> := [];
    for i := 0 to |doc.items|
      invariant flt == AllResolved(maxVer, Kept(maxVer, doc.items[..i]))
    {
      var item := doc.items[i];
      assert doc.items[..i + 1] == doc.items[..i] + [item];
      FilterConcat(Keeping(maxVer), doc.items[..i], [item]);
      FilterOne(Keeping(maxVer), item);
      if VersionOr(item, DEFAULT_VERSION).AtMost(maxVer) {
        var desc := FilterDesc(maxVer, item.desc);
        flt := flt + [item.(desc := desc)];
      }
    }
    assert doc.items[..|doc.items|] == doc.items;
    var desc := FilterDesc(maxVer, doc.desc);
    r := Some(Document(doc.version, desc, flt));
  }

  /** The loop over the texts of a description, each admitted one replacing the one before. */
  method FilterDesc(maxVer: Version, desc: Option<Desc>) returns (r: Option<Desc>)
    ensures r == Resolved(maxVer, desc)
  {
    r := desc;
    if desc.Some? && desc.value.PerVersion? {
      var texts := desc.value.texts;
      for k := 0 to |texts|
        invariant r == if LastAdmitted(maxVer, texts[..k]).Some? then Some(Text(LastAdmitted(maxVer, texts[..k]).value))
                       else desc
      {
        assert texts[..k + 1][..k] == texts[..k];
        if texts[k].0.AtMost(maxVer) {
          r := Some(Text(texts[k].1));
        }
      }
      assert texts[..|texts|] == texts;
    }
  }

  predicate Increasing(texts: seq<(Version, string)>) {
    forall i, j :: 0 <= i < j < |texts| ==> texts[i].0.Less(texts[j].0)
  }

  /** Of texts in increasing order the one with the newest admitted version is chosen. */
  lemma {:induction false} NewestTextChosen(maxVer: Version, texts: seq<(Version, string)>, i: nat)
    requires Increasing(texts) && i < |texts|
    requires texts[i].0.AtMost(maxVer) && (i + 1 < |texts| ==> maxVer.Less(texts[i + 1].0))
    ensures LastAdmitted(maxVer, texts) == Some(texts[i].1)
  {
    var n := |texts| - 1;
    if i < n {
      assert i + 1 < n ==> texts[i + 1].0.Less(texts[n].0);
      NewestTextChosen(maxVer, texts[..n], i);
    }
  }

  lemma {:induction false} NoneAdmitted(maxVer: Version, texts: seq<(Version, string)>)
    requires forall i :: 0 <= i < |texts| ==> maxVer.Less(texts[i].0)
    ensures LastAdmitted(maxVer, texts) == None
  {
    if texts != [] {
      assert maxVer.Less(texts[|texts| - 1].0);
      NoneAdmitted(maxVer, texts[..|texts| - 1]);
    }
  }

  /** A single text, and texts none of which is admitted, stay as they are. */
  lemma {:induction false} DescriptionStays(maxVer: Version, desc: Option<Desc>)
    requires desc.Some? && desc.value.PerVersion? ==>
               forall i :: 0 <= i < |desc.value.texts| ==> maxVer.Less(desc.value.texts[i].0)
    ensures Resolved(maxVer, desc) == desc
  {
    if desc.Some? && desc.value.PerVersion? {
      NoneAdmitted(maxVer, desc.value.texts);
    }
  }

  lemma {:induction false} KeptAll(maxVer: Version, items: seq<Item>)
    requires forall i :: 0 <= i < |items| ==> Keeps(maxVer, items[i])
    ensures Kept(maxVer, items) == items
  {
    if items != [] {
      KeptAll(maxVer, items[1..]);
    }
  }

  /** Whatever is kept comes before whatever is dropped. */
  predicate KeptFirst(maxVer: Version, items: seq<Item>) {
    forall i, j :: 0 <= i < j < |items| && Keeps(maxVer, items[j]) ==> Keeps(maxVer, items[i])
  }

  lemma {:induction false} KeptIsPrefix(maxVer: Version, items: seq<Item>)
    requires KeptFirst(maxVer, items)
    ensures Kept(maxVer, items) <= items
  {
    if items != [] {
      var front, last := items[..|items| - 1], items[|items| - 1];
      assert items == front + [last];
      FilterConcat(Keeping(maxVer), front, [last]);
      FilterOne(Keeping(maxVer), last);
      if Keeps(maxVer, last) {
        KeptAll(maxVer, items);
      } else {
        KeptIsPrefix(maxVer, front);
      }
    }
  }

  lemma {:induction false} FirstDropped(maxVer: Version, items: seq<Item>, i: nat, j: nat)
    requires i < j < |items| && !Keeps(maxVer, items[i]) && Keeps(maxVer, items[j])
    requires forall k :: 0 <= k < i ==> Keeps(maxVer, items[k])
    ensures !(Kept(maxVer, items) <= items)
  {
    var front, back := items[..i], items[i..];
    assert items == front + back;
    assert Kept(maxVer, items) == front + Kept(maxVer, back) by {
      KeptAll(maxVer, front);
      FilterConcat(Keeping(maxVer), front, back);
    }
    FilterMembers(Keeping(maxVer), back);
    assert back[j - i] in Kept(maxVer, back);
    var first := Kept(maxVer, back)[0];
    assert first in Kept(maxVer, back);
    assert Kept(maxVer, items)[i] == first;
  }

  /** What is kept is not a prefix if something is dropped before it. */
  lemma {:induction false} DroppedBeforeKept(maxVer: Version, items: seq<Item>, i: nat, j: nat)
    requires i < j < |items| && !Keeps(maxVer, items[i]) && Keeps(maxVer, items[j])
    ensures !(Kept(maxVer, items) <= items)
    decreases i
  {
    if k :| 0 <= k < i && !Keeps(maxVer, items[k]) {
      DroppedBeforeKept(maxVer, items, k, j);
    } else {
      FirstDropped(maxVer, items, i, j);
    }
  }

  // ---------------------------------------------------------------- filtering accepted documents

  /** At every version at which the document exists, a prefix of its items is kept. */
  ghost predicate AlwaysPrefix(docVersion: Version, items: seq<Item>) {
    forall maxVer: Version :: docVersion.AtMost(maxVer) ==> Kept(maxVer, items) <= items
  }

  /** No item without a version comes before an item that declares a version below the default. */
  predicate DefaultsNotOvertaken(items: seq<Item>) {
    forall i, j :: 0 <= i < j < |items| && items[i].version.None? && items[j].version.Some? ==>
      Version(0, 12).AtMost(items[j].version.value)
  }

  lemma {:induction false} AcceptedKeptFirst(docVersion: Version, items: seq<Item>, maxVer: Version)
    requires Accepted(docVersion, items) && DefaultsNotOvertaken(items) && docVersion.AtMost(maxVer)
    ensures KeptFirst(maxVer, items)
  {
    forall i, j | 0 <= i < j < |items| && Keeps(maxVer, items[j])
      ensures Keeps(maxVer, items[i])
    {
      assert VersionOr(items[i], docVersion).AtMost(VersionOr(items[j], docVersion));
    }
  }

  /**
   For every accepted list the filter keeps a prefix at every version if and only if no item
   without a version is overtaken by one that declares a version below the default.
   */
  lemma {:induction false} PrefixIff(docVersion: Version, items: seq<Item>)
    requires Accepted(docVersion, items)
    ensures AlwaysPrefix(docVersion, items) <==> DefaultsNotOvertaken(items)
  {
    if DefaultsNotOvertaken(items) {
      forall maxVer: Version | docVersion.AtMost(maxVer)
        ensures Kept(maxVer, items) <= items
      {
        AcceptedKeptFirst(docVersion, items, maxVer);
        KeptIsPrefix(maxVer, items);
      }
    } else {
      var i, j :| 0 <= i < j < |items| && items[i].version.None? && items[j].version.Some?
                  && !DEFAULT_VERSION.AtMost(items[j].version.value);
      var maxVer := items[j].version.value;
      assert docVersion.AtMost(VersionOr(items[j], docVersion));
      DroppedBeforeKept(maxVer, items, i, j);
    }
  }

  lemma {:induction false} KeptGrows(older: Version, newer: Version, items: seq<Item>)
    requires older.AtMost(newer)
    ensures |Kept(older, items)| <= |Kept(newer, items)|
  {
    if items != [] {
      KeptGrows(older, newer, items[1..]);
    }
  }

  /** What is kept at an older version is always a prefix of what is kept at a newer one. */
  ghost predicate AlwaysNested(docVersion: Version, items: seq<Item>) {
    forall older: Version, newer: Version :: docVersion.AtMost(older) && older.AtMost(newer) ==>
                                               Kept(older, items) <= Kept(newer, items)
  }

  /** A version at which everything is kept. */
  function NewestVersion(items: seq<Item>): (v: Version)
    ensures forall i :: 0 <= i < |items| ==> Keeps(v, items[i])
  {
    if items == [] then DEFAULT_VERSION
    else
      var rest := NewestVersion(items[1..]);
      var own := VersionOr(items[0], DEFAULT_VERSION);
      assert forall i :: 0 < i < |items| ==> items[i] == items[1..][i - 1];
      if rest.Less(own) then own else rest
  }

  lemma {:induction false} PrefixesOfOne<T>(xs: seq<T>, ys: seq<T>, whole: seq<T>)
    requires xs <= whole && ys <= whole && |xs| <= |ys|
    ensures xs <= ys
  {
    assert xs == whole[..|xs|] == whole[..|ys|][..|xs|];
  }

  /** Under the condition, the list kept at an older version is a prefix of the list kept at a newer one. */
  lemma {:induction false} OlderIsPrefixOfNewer(docVersion: Version, items: seq<Item>, older: Version, newer: Version)
    requires Accepted(docVersion, items) && DefaultsNotOvertaken(items)
    requires docVersion.AtMost(older) && older.AtMost(newer)
    ensures Kept(older, items) <= Kept(newer, items) <= items
  {
    VersionsAreTotallyOrdered(docVersion, older, newer);
    PrefixIff(docVersion, items);
    KeptGrows(older, newer, items);
    PrefixesOfOne(Kept(older, items), Kept(newer, items), items);
  }

  /** There is a later version at which everything is kept. */
  lemma {:induction false} AllKeptLater(v: Version, items: seq<Item>) returns (newer: Version)
    ensures v.AtMost(newer) && Kept(newer, items) == items
  {
    var newest := NewestVersion(items);
    newer := if v.Less(newest) then newest else v;
    forall i | 0 <= i < |items|
      ensures Keeps(newer, items[i])
    {
      VersionsAreTotallyOrdered(VersionOr(items[i], DEFAULT_VERSION), newest, v);
    }
    KeptAll(newer, items);
  }

  /**
   For every accepted list, older selections are prefixes of newer ones under exactly the condition
   under which every selection is a prefix of the list.
   */
  lemma {:induction false} OlderIsPrefixOfNewerIff(docVersion: Version, items: seq<Item>)
    requires Accepted(docVersion, items)
    ensures AlwaysNested(docVersion, items) <==> DefaultsNotOvertaken(items)
  {
    PrefixIff(docVersion, items);
    if DefaultsNotOvertaken(items) {
      forall older: Version, newer: Version | docVersion.AtMost(older) && older.AtMost(newer)
        ensures Kept(older, items) <= Kept(newer, items)
      {
        OlderIsPrefixOfNewer(docVersion, items, older, newer);
      }
    } else {
      var maxVer: Version :| docVersion.AtMost(maxVer) && !(Kept(maxVer, items) <= items);
      var newer := AllKeptLater(maxVer, items);
      assert !(Kept(maxVer, items) <= Kept(newer, items));
    }
  }

  /** The condition holds when all items carry a version, or when the document has the default one. */
  lemma {:induction false} UsualDocuments(docVersion: Version, items: seq<Item>)
    requires Accepted(docVersion, items)
    requires docVersion == Version(0, 12) || forall i :: 0 <= i < |items| ==> items[i].version.Some?
    ensures DefaultsNotOvertaken(items) && AlwaysPrefix(docVersion, items)
  {
    forall i, j | 0 <= i < j < |items| && items[i].version.None? && items[j].version.Some?
      ensures DEFAULT_VERSION.AtMost(items[j].version.value)
    {
      assert docVersion.AtMost(VersionOr(items[j], docVersion));
    }
    PrefixIff(docVersion, items);
  }

  /** An accepted list that is not filtered to a prefix: the old document's own item comes back late. */
  lemma {:induction false} OvertakenDefault()
    ensures var items := [Item("a", None, None), Item("b", Some(Version(0, 7)), None)];
            Accepted(Version(0, 6), items) && !AlwaysPrefix(Version(0, 6), items)
  {
    var items := [Item("a", None, None), Item("b", Some(Version(0, 7)), None)];
    assert Accepted(Version(0, 6), items);
    PrefixIff(Version(0, 6), items);
    assert items[0].version.None? && items[1].version == Some(Version(0, 7));
  }
}
