/**
 The manager of USM pools: a hash index whose keys are equal up to the native handle of their
 device. The native-handle query and the combination of hashes are arbitrary functions.
 */
module PoolManager {
  import opened Prelude

  datatype UsmType = Unknown | Host | Device | Shared

  /** Handles are addresses; 0 is the null handle. */
  type Handle = nat
  type Pool = nat

  datatype Descriptor = Descriptor(
    poolHandle: Handle, hContext: Handle, hDevice: Handle, usmType: UsmType, deviceReadOnly: bool)
  {
    predicate IsSharedReadOnly() {
      usmType == Shared && deviceReadOnly
    }
  }

  /** What the foreign functions do. */
  datatype Platform = Platform(native: Handle -> nat, combine: (UsmType, nat, bool, Handle) -> nat) {

    function NativeHandle(device: Handle): nat {
      if device == 0 then 0 else native(device)
    }

    /** `operator==`; the context does not take part. */
    predicate Same(lhs: Descriptor, rhs: Descriptor) {
      && NativeHandle(lhs.hDevice) == NativeHandle(rhs.hDevice)
      && lhs.usmType == rhs.usmType
      && lhs.IsSharedReadOnly() == rhs.IsSharedReadOnly()
      && lhs.poolHandle == rhs.poolHandle
    }

    function Hash(d: Descriptor): nat {
      combine(d.usmType, NativeHandle(d.hDevice), d.IsSharedReadOnly(), d.poolHandle)
    }
  }

  datatype Entry = Entry(desc: Descriptor, pool: Pool)

  datatype UrResult = Success | InvalidArgument

  lemma SameIsEquivalenceRespectedByHash(p: Platform, a: Descriptor, b: Descriptor, c: Descriptor)
    ensures p.Same(a, a)
    ensures p.Same(a, b) ==> p.Same(b, a) && p.Hash(a) == p.Hash(b)
    ensures p.Same(a, b) && p.Same(b, c) ==> p.Same(a, c)
  {
  }

  // ---------------------------------------------------------------- the association list

  /** Linear search by `==`. */
  function FirstSame(p: Platform, entries: seq<Entry>, d: Descriptor): Option<Pool> {
    if entries == [] then None
    else if p.Same(entries[0].desc, d) then Some(entries[0].pool)
    else FirstSame(p, entries[1..], d)
  }

  lemma {:induction false} FirstSameFacts(p: Platform, entries: seq<Entry>, d: Descriptor)
    ensures FirstSame(p, entries, d).None? <==> forall e :: e in entries ==> !p.Same(e.desc, d)
  {
    if entries != [] && !p.Same(entries[0].desc, d) {
      FirstSameFacts(p, entries[1..], d);
      assert entries == [entries[0]] + entries[1..];
    }
  }

  ghost predicate PairwiseDifferent(p: Platform, ds: seq<Descriptor>) {
    forall i, j :: 0 <= i < j < |ds| ==> !p.Same(ds[i], ds[j])
  }

  function Descs(entries: seq<Entry>): (ds: seq<Descriptor>)
    ensures |ds| == |entries|
    ensures forall i :: 0 <= i < |ds| ==> ds[i] == entries[i].desc
  {
    seq(|entries|, i requires 0 <= i < |entries| => entries[i].desc)
  }

  /** The association list after a sequence of calls: an add under a known descriptor is rejected. */
  function Accepted(p: Platform, calls: seq<Entry>): seq<Entry> {
    if calls == [] then []
    else
      var before, last := Accepted(p, calls[..|calls| - 1]), calls[|calls| - 1];
      if FirstSame(p, before, last.desc).Some? then before else before + [last]
  }

  lemma {:induction false} FirstSameAppend(p: Platform, entries: seq<Entry>, e: Entry, d: Descriptor)
    ensures FirstSame(p, entries + [e], d) ==
            if FirstSame(p, entries, d).Some? then FirstSame(p, entries, d)
            else if p.Same(e.desc, d) then Some(e.pool) else None
  {
    if entries == [] {
      assert entries + [e] == [e];
    } else {
      assert (entries + [e])[1..] == entries[1..] + [e];
      FirstSameAppend(p, entries[1..], e, d);
    }
  }

  lemma {:induction false} FirstSameCongruent(p: Platform, entries: seq<Entry>, d: Descriptor, d': Descriptor)
    requires p.Same(d, d')
    ensures FirstSame(p, entries, d) == FirstSame(p, entries, d')
  {
    if entries != [] {
      FirstSameCongruent(p, entries[1..], d, d');
    }
  }

  /** After any calls, a lookup finds the pool first added under an equal descriptor. */
  lemma {:induction false} LookupFindsFirstAdded(p: Platform, calls: seq<Entry>, d: Descriptor)
    ensures FirstSame(p, Accepted(p, calls), d) == FirstSame(p, calls, d)
  {
    if calls != [] {
      var front, last := calls[..|calls| - 1], calls[|calls| - 1];
      assert calls == front + [last];
      LookupFindsFirstAdded(p, front, d);
      LookupFindsFirstAdded(p, front, last.desc);
      FirstSameAppend(p, front, last, d);
      FirstSameAppend(p, Accepted(p, front), last, d);
      if p.Same(last.desc, d) {
        FirstSameCongruent(p, Accepted(p, front), last.desc, d);
      }
    }
  }

  // ---------------------------------------------------------------- the hash index

  /** Every entry is in the bucket of its hash, and nothing else is in a bucket. */
  ghost predicate Represents(p: Platform, buckets: seq<seq<Entry>>, entries: seq<Entry>) {
    && |buckets| > 0
    && (forall i, e :: 0 <= i < |buckets| && e in buckets[i] ==>
          e in entries && p.Hash(e.desc) % |buckets| == i)
    && (forall e :: e in entries ==> e in buckets[p.Hash(e.desc) % |buckets|])
  }

  lemma {:induction false} InsertRepresents(p: Platform, buckets: seq<seq<Entry>>, entries: seq<Entry>, e: Entry)
    requires Represents(p, buckets, entries)
    ensures var i := p.Hash(e.desc) % |buckets|;
            Represents(p, buckets[i := buckets[i] + [e]], entries + [e])
  {
    var i := p.Hash(e.desc) % |buckets|;
    var more := buckets[i := buckets[i] + [e]];
    forall j, x | 0 <= j < |more| && x in more[j]
      ensures x in entries + [e] && p.Hash(x.desc) % |more| == j
    {
      assert x == e || x in buckets[j];
    }
  }

  lemma {:induction false} InsertKeepsDifferent(p: Platform, entries: seq<Entry>, e: Entry)
    requires PairwiseDifferent(p, Descs(entries)) && forall x :: x in entries ==> !p.Same(x.desc, e.desc)
    ensures PairwiseDifferent(p, Descs(entries + [e]))
  {
    forall i, j | 0 <= i < j < |entries| + 1
      ensures !p.Same(Descs(entries + [e])[i], Descs(entries + [e])[j])
    {
      assert Descs(entries)[i] == entries[i].desc;
      if j < |entries| {
        assert !p.Same(Descs(entries)[i], Descs(entries)[j]);
      }
    }
  }

  class Manager {
    const platform: Platform
    var buckets: seq<seq<Entry>>
    ghost var entries: seq<Entry>  // the association list that the index stands for
    ghost var calls: seq<Entry>  // every add so far, rejected ones included

    ghost predicate Valid()
      reads this
    {
      && Represents(platform, buckets, entries)
      && PairwiseDifferent(platform, Descs(entries))
      && entries == Accepted(platform, calls)
    }

    constructor (platform: Platform, bucketCount: nat)
      requires bucketCount > 0
      ensures Valid() && calls == [] && this.platform == platform
    {
      this.platform := platform;
      buckets := seq(bucketCount, _ => []);
      entries, calls := [], [];
    }

    /** `find`: only the bucket of the hash is searched. */
    method Find(d: Descriptor) returns (r: Option<Pool>)
      requires Valid()
      ensures r == FirstSame(platform, entries, d)
    {
      var bucket := buckets[platform.Hash(d) % |buckets|];
      for i := 0 to |bucket|
        invariant forall k :: 0 <= k < i ==> !platform.Same(bucket[k].desc, d)
      {
        if platform.Same(bucket[i].desc, d) {
          UniqueSame(platform, entries, bucket[i], d);
          return Some(bucket[i].pool);
        }
      }
      forall e | e in entries
        ensures !platform.Same(e.desc, d)
      {
        assert e in bucket || platform.Hash(e.desc) != platform.Hash(d);
        SameIsEquivalenceRespectedByHash(platform, e.desc, d, d);
      }
      FirstSameFacts(platform, entries, d);
      r := None;
    }

    /** After any adds, the pool that was first added under an equal descriptor. */
    method GetPool(d: Descriptor) returns (r: Option<Pool>)
      requires Valid()
      ensures r == FirstSame(platform, calls, d)
    {
      r := Find(d);
      LookupFindsFirstAdded(platform, calls, d);
    }

    /** `try_emplace`: a rejected add changes nothing. */
    method AddPool(d: Descriptor, pool: Pool) returns (r: UrResult)
      requires Valid()
      modifies this
      ensures Valid() && calls == old(calls) + [Entry(d, pool)]
      ensures r == Success <==> FirstSame(platform, old(calls), d).None?
      ensures r == Success ==> entries == old(entries) + [Entry(d, pool)]
      ensures r == InvalidArgument ==> entries == old(entries) && buckets == old(buckets)
    {
      var known := Find(d);
      LookupFindsFirstAdded(platform, calls, d);
      calls := calls + [Entry(d, pool)];
      assert calls[..|calls| - 1] == old(calls);
      if known.Some? {
        return InvalidArgument;
      }
      var i := platform.Hash(d) % |buckets|;
      FirstSameFacts(platform, entries, d);
      InsertRepresents(platform, buckets, entries, Entry(d, pool));
      InsertKeepsDifferent(platform, entries, Entry(d, pool));
      buckets := buckets[i := buckets[i] + [Entry(d, pool)]];
      entries := entries + [Entry(d, pool)];
      r := Success;
    }

    /** Any number of adds, accepted or not. */
    method AddAll(more: seq<Entry>)
      requires Valid()
      modifies this
      ensures Valid() && calls == old(calls) + more
    {
      for k := 0 to |more|
        invariant Valid() && calls == old(calls) + more[..k]
      {
        var _ := AddPool(more[k].desc, more[k].pool);
        TakeNext(old(calls), more, k);
      }
      assert more[..|more|] == more;
    }

    /** The container may change the number of buckets at any time; no lookup notices. */
    method Rehash(bucketCount: nat)
      requires Valid() && bucketCount > 0
      modifies this
      ensures Valid() && entries == old(entries) && calls == old(calls)
      ensures |buckets| == bucketCount
    {
      var all := Flatten(buckets);
      FlattenMembers(buckets);
      var p := platform;
      var inBucket := (i: nat) => (e: Entry) => p.Hash(e.desc) % bucketCount == i;
      forall i: nat
        ensures forall e :: e in Filter(inBucket(i), all) <==> e in all && inBucket(i)(e)
      {
        FilterMembers(inBucket(i), all);
      }
      forall e | e in entries
        ensures e in all
      {
        assert buckets[p.Hash(e.desc) % |buckets|] in buckets;
      }
      buckets := seq(bucketCount, i requires 0 <= i < bucketCount => Filter(inBucket(i), all));
    }
  }

  lemma {:induction false} UniqueSame(p: Platform, entries: seq<Entry>, e: Entry, d: Descriptor)
    requires PairwiseDifferent(p, Descs(entries)) && e in entries && p.Same(e.desc, d)
    ensures FirstSame(p, entries, d) == Some(e.pool)
  {
    var i :| 0 <= i < |entries| && entries[i] == e;
    if i == 0 {
    } else {
      assert !p.Same(Descs(entries)[0], Descs(entries)[i]);
      assert entries[1..][i - 1] == e;
      var rest := entries[1..];
      forall a, b | 0 <= a < b < |rest|
        ensures !p.Same(Descs(rest)[a], Descs(rest)[b])
      {
        assert !p.Same(Descs(entries)[a + 1], Descs(entries)[b + 1]);
      }
      UniqueSame(p, rest, e, d);
    }
  }

  lemma {:induction false} RepeatedDescriptor(p: Platform, contents: seq<Entry>, i: nat)
    requires i < |contents| && FirstSame(p, contents[..i], contents[i].desc).Some?
    ensures !PairwiseDifferent(p, Descs(contents))
  {
    FirstSameFacts(p, contents[..i], contents[i].desc);
    var j :| 0 <= j < i && p.Same(contents[..i][j].desc, contents[i].desc);
    assert p.Same(Descs(contents)[j], Descs(contents)[i]);
  }

  /** `create`: it fails exactly when two of the given descriptors are equal. */
  method Create(platform: Platform, bucketCount: nat, contents: seq<Entry>)
    returns (r: UrResult, manager: Manager)
    requires bucketCount > 0
    ensures manager.Valid() && manager.platform == platform
    ensures r == Success <==> PairwiseDifferent(platform, Descs(contents))
    ensures manager.calls == if r == Success then contents else []
    ensures manager.entries == manager.calls
  {
    manager := new Manager(platform, bucketCount);
    for i := 0 to |contents|
      invariant fresh(manager) && manager.Valid() && manager.platform == platform
      invariant manager.entries == manager.calls == contents[..i]
    {
      r := manager.AddPool(contents[i].desc, contents[i].pool);
      if r != Success {
        RepeatedDescriptor(platform, contents, i);
        manager := new Manager(platform, bucketCount);
        return;
      }
      TakeNext([], contents, i);
    }
    assert contents[..|contents|] == contents;
    r := Success;
  }

  // ---------------------------------------------------------------- descriptors of the devices

  const KINDS := 3

  function HostDescriptor(poolHandle: Handle, hContext: Handle): Descriptor {
    Descriptor(poolHandle, hContext, 0, Host, false)
  }

  /** Kind 0 is device memory, 1 shared memory and 2 shared memory that the device only reads. */
  function DeviceDescriptor(poolHandle: Handle, hContext: Handle, device: Handle, kind: nat): Descriptor {
    Descriptor(poolHandle, hContext, device, if kind == 0 then Device else Shared, kind == 2)
  }

  /** The host descriptor, then three descriptors per device. */
  function DescriptorAt(poolHandle: Handle, hContext: Handle, devices: seq<Handle>, k: nat): Descriptor
    requires k < KINDS * |devices| + 1
  {
    if k == 0 then HostDescriptor(poolHandle, hContext)
    else DeviceDescriptor(poolHandle, hContext, devices[(k - 1) / KINDS], (k - 1) % KINDS)
  }

  function FromDevices(poolHandle: Handle, hContext: Handle, devices: seq<Handle>): seq<Descriptor> {
    seq(KINDS * |devices| + 1,
        k requires 0 <= k < KINDS * |devices| + 1 => DescriptorAt(poolHandle, hContext, devices, k))
  }

  method CreateFromDevices(poolHandle: Handle, hContext: Handle, devices: seq<Handle>)
    returns (descriptors: seq<Descriptor>)
    ensures descriptors == FromDevices(poolHandle, hContext, devices)
    ensures |descriptors| == 3 * |devices| + 1
  {
    descriptors := [Descriptor(poolHandle, hContext, 0, Host, false)];
    for i := 0 to |devices|
      invariant |descriptors| == KINDS * i + 1
      invariant forall k :: 0 <= k < |descriptors| ==> descriptors[k] == DescriptorAt(poolHandle, hContext, devices, k)
    {
      descriptors := descriptors + [Descriptor(poolHandle, hContext, devices[i], Device, false)];
      descriptors := descriptors + [Descriptor(poolHandle, hContext, devices[i], Shared, false)];
      descriptors := descriptors + [Descriptor(poolHandle, hContext, devices[i], Shared, true)];
    }
  }

  /** The descriptors of the devices, written out. */
  lemma {:induction false} WrittenOut(pool: Handle, context: Handle, devices: seq<Handle>, i: nat)
    ensures FromDevices(pool, context, devices)[0] == Descriptor(pool, context, 0, Host, false)
    ensures i < |devices| ==>
              var ds := FromDevices(pool, context, devices);
              && ds[3 * i + 1] == Descriptor(pool, context, devices[i], Device, false)
              && ds[3 * i + 2] == Descriptor(pool, context, devices[i], Shared, false)
              && ds[3 * i + 3] == Descriptor(pool, context, devices[i], Shared, true)
  {
    KindOf(i, 0);
    KindOf(i, 1);
    KindOf(i, 2);
  }

  lemma KindOf(i: nat, kind: nat)
    requires kind < KINDS
    ensures (KINDS * i + kind) / KINDS == i && (KINDS * i + kind) % KINDS == kind
  {
  }

  ghost predicate DistinctNatives(p: Platform, devices: seq<Handle>) {
    forall i, j :: 0 <= i < j < |devices| ==> p.NativeHandle(devices[i]) != p.NativeHandle(devices[j])
  }

  /** Two descriptors of devices are equal when the kinds and the native handles agree. */
  lemma SameDescriptors(p: Platform, pool: Handle, context: Handle, devices: seq<Handle>, k: nat, l: nat)
    requires 0 < k < KINDS * |devices| + 1 && 0 < l < KINDS * |devices| + 1
    ensures p.Same(DescriptorAt(pool, context, devices, k), DescriptorAt(pool, context, devices, l)) <==>
              && (k - 1) % KINDS == (l - 1) % KINDS
              && p.NativeHandle(devices[(k - 1) / KINDS]) == p.NativeHandle(devices[(l - 1) / KINDS])
  {
  }

  /** The descriptors are pairwise unequal exactly when the devices have distinct native handles. */
  lemma {:induction false} DescriptorsDifferIffNativesDo(
      p: Platform, pool: Handle, context: Handle, devices: seq<Handle>)
    ensures PairwiseDifferent(p, FromDevices(pool, context, devices)) <==> DistinctNatives(p, devices)
  {
    var ds := FromDevices(pool, context, devices);
    if DistinctNatives(p, devices) {
      forall k, l | 0 <= k < l < |ds|
        ensures !p.Same(ds[k], ds[l])
      {
        if k > 0 {
          SameDescriptors(p, pool, context, devices, k, l);
          assert (k - 1) / KINDS <= (l - 1) / KINDS;
        }
      }
    } else {
      var i, j :| 0 <= i < j < |devices| && p.NativeHandle(devices[i]) == p.NativeHandle(devices[j]);
      var k, l := KINDS * i + 1, KINDS * j + 1;
      SameDescriptors(p, pool, context, devices, k, l);
      assert p.Same(ds[k], ds[l]);
    }
  }

  /** The calls that add a pool for every descriptor. */
  function Calls(ds: seq<Descriptor>, pools: seq<Pool>): (calls: seq<Entry>)
    requires |ds| == |pools|
    ensures |calls| == |ds|
  {
    seq(|ds|, k requires 0 <= k < |ds| => Entry(ds[k], pools[k]))
  }

  lemma {:induction false} FirstSameAt(p: Platform, entries: seq<Entry>, d: Descriptor, k: nat)
    requires k < |entries| && p.Same(entries[k].desc, d)
    requires forall j :: 0 <= j < k ==> !p.Same(entries[j].desc, d)
    ensures FirstSame(p, entries, d) == Some(entries[k].pool)
  {
    if k > 0 {
      FirstSameAt(p, entries[1..], d, k - 1);
    }
  }

  /** The first descriptor is the host's, and no other equals a request for host memory. */
  lemma {:induction false} HostFindsFirst(
      p: Platform, pool: Handle, context: Handle, devices: seq<Handle>, pools: seq<Pool>, context': Handle)
    requires |pools| == KINDS * |devices| + 1
    ensures FirstSame(p, Calls(FromDevices(pool, context, devices), pools),
                      Descriptor(pool, context', 0, Host, false)) == Some(pools[0])
  {
    FirstSameAt(p, Calls(FromDevices(pool, context, devices), pools), Descriptor(pool, context', 0, Host, false), 0);
  }

  lemma {:induction false} DeviceFindsRoot(
      p: Platform, pool: Handle, context: Handle, devices: seq<Handle>, pools: seq<Pool>,
      i: nat, kind: nat, d: Descriptor)
    requires |pools| == KINDS * |devices| + 1 && i < |devices| && kind < KINDS
    requires p.Same(DeviceDescriptor(pool, context, devices[i], kind), d)
    requires forall j :: 0 <= j < i ==> p.NativeHandle(devices[j]) != p.NativeHandle(devices[i])
    ensures FirstSame(p, Calls(FromDevices(pool, context, devices), pools), d) == Some(pools[KINDS * i + kind + 1])
  {
    var ds := FromDevices(pool, context, devices);
    var calls := Calls(ds, pools);
    var k := KINDS * i + kind + 1;
    assert p.Same(ds[k], d);
    forall l | 0 <= l < k
      ensures !p.Same(calls[l].desc, d)
    {
      if l > 0 {
        SameDescriptors(p, pool, context, devices, l, k);
        assert (l - 1) / KINDS <= i;
      }
    }
    FirstSameAt(p, calls, d, k);
  }

  /**
   Once the descriptors of all devices are added, a device that shares the native handle of
   `devices[i]` (a sub-device) is given that device's pools for device memory, shared memory and
   shared memory that the device only reads, provided no earlier device has the same native handle;
   the context of the request does not matter.
   */
  lemma {:induction false} SubDeviceSharesRootPool(
      p: Platform, pool: Handle, context: Handle, devices: seq<Handle>, pools: seq<Pool>,
      i: nat, sub: Handle, context': Handle)
    requires |pools| == 3 * |devices| + 1 && i < |devices|
    requires p.NativeHandle(sub) == p.NativeHandle(devices[i])
    requires forall j :: 0 <= j < i ==> p.NativeHandle(devices[j]) != p.NativeHandle(devices[i])
    ensures var calls := Calls(FromDevices(pool, context, devices), pools);
            && (forall readOnly: bool ::
                  FirstSame(p, calls, Descriptor(pool, context', sub, Device, readOnly)) == Some(pools[3 * i + 1]))
            && FirstSame(p, calls, Descriptor(pool, context', sub, Shared, false)) == Some(pools[3 * i + 2])
            && FirstSame(p, calls, Descriptor(pool, context', sub, Shared, true)) == Some(pools[3 * i + 3])
  {
    forall readOnly: bool
      ensures FirstSame(p, Calls(FromDevices(pool, context, devices), pools),
                        Descriptor(pool, context', sub, Device, readOnly)) == Some(pools[3 * i + 1])
    {
      DeviceFindsRoot(p, pool, context, devices, pools, i, 0, Descriptor(pool, context', sub, Device, readOnly));
    }
    DeviceFindsRoot(p, pool, context, devices, pools, i, 1, Descriptor(pool, context', sub, Shared, false));
    DeviceFindsRoot(p, pool, context, devices, pools, i, 2, Descriptor(pool, context', sub, Shared, true));
  }

  /** One of the descriptors of the devices equals the request. */
  ghost predicate Served(p: Platform, pool: Handle, devices: seq<Handle>, d: Descriptor) {
    && d.poolHandle == pool
    && (|| (d.usmType == Host && p.NativeHandle(d.hDevice) == 0)
        || (&& (d.usmType == Device || d.usmType == Shared)
            && exists i :: 0 <= i < |devices| && p.NativeHandle(devices[i]) == p.NativeHandle(d.hDevice)))
  }

  /** Exactly these requests find a pool once the descriptors of all devices are added. */
  lemma {:induction false} ServedIff(
      p: Platform, pool: Handle, context: Handle, devices: seq<Handle>, pools: seq<Pool>, d: Descriptor)
    requires |pools| == 3 * |devices| + 1
    ensures FirstSame(p, Calls(FromDevices(pool, context, devices), pools), d).Some? <==> Served(p, pool, devices, d)
  {
    var ds := FromDevices(pool, context, devices);
    var calls := Calls(ds, pools);
    FirstSameFacts(p, calls, d);
    if e :| e in calls && p.Same(e.desc, d) {
      var k :| 0 <= k < |calls| && calls[k] == e;
      if k > 0 {
        assert p.NativeHandle(devices[(k - 1) / KINDS]) == p.NativeHandle(d.hDevice);
      }
    }
    if Served(p, pool, devices, d) {
      if d.usmType == Host {
        assert p.Same(calls[0].desc, d);
      } else {
        var i :| 0 <= i < |devices| && p.NativeHandle(devices[i]) == p.NativeHandle(d.hDevice);
        var kind := if d.usmType == Device then 0 else if d.deviceReadOnly then 2 else 1;
        assert p.Same(calls[KINDS * i + kind + 1].desc, d);
      }
    }
  }

  /** A manager to which a pool is added for every descriptor of the devices, in order. */
  method ManagerForDevices(
      platform: Platform, bucketCount: nat, poolHandle: Handle, hContext: Handle, devices: seq<Handle>,
      pools: seq<Pool>)
    returns (manager: Manager)
    requires bucketCount > 0 && |pools| == 3 * |devices| + 1
    ensures fresh(manager) && manager.Valid() && manager.platform == platform
    ensures manager.calls == Calls(FromDevices(poolHandle, hContext, devices), pools)
  {
    manager := new Manager(platform, bucketCount);
    var descriptors := CreateFromDevices(poolHandle, hContext, devices);
    manager.AddAll(Calls(descriptors, pools));
  }

  /**
   The same of the manager itself: pools are added for all devices, and the host and a sub-device
   are then looked up.
   */
  method SubDevicePools(
      platform: Platform, bucketCount: nat, poolHandle: Handle, hContext: Handle, devices: seq<Handle>,
      pools: seq<Pool>, ghost i: nat, sub: Handle, hContext': Handle)
    returns (host: Option<Pool>, device: Option<Pool>, shared: Option<Pool>, readOnly: Option<Pool>)
    requires bucketCount > 0 && |pools| == 3 * |devices| + 1 && i < |devices|
    requires platform.NativeHandle(sub) == platform.NativeHandle(devices[i])
    requires forall j :: 0 <= j < i ==> platform.NativeHandle(devices[j]) != platform.NativeHandle(devices[i])
    ensures host == Some(pools[0]) && device == Some(pools[3 * i + 1])
    ensures shared == Some(pools[3 * i + 2]) && readOnly == Some(pools[3 * i + 3])
  {
    var manager := ManagerForDevices(platform, bucketCount, poolHandle, hContext, devices, pools);
    HostFindsFirst(platform, poolHandle, hContext, devices, pools, hContext');
    SubDeviceSharesRootPool(platform, poolHandle, hContext, devices, pools, i, sub, hContext');
    host := manager.GetPool(Descriptor(poolHandle, hContext', 0, Host, false));
    device := manager.GetPool(Descriptor(poolHandle, hContext', sub, Device, false));
    shared := manager.GetPool(Descriptor(poolHandle, hContext', sub, Shared, false));
    readOnly := manager.GetPool(Descriptor(poolHandle, hContext', sub, Shared, true));
  }
}
