/**
 * Reflection-driven plugin discovery, with reflection made abstract: an
 * assembly is the sequence of type records `GetTypes` enumerates, and a
 * type carries the data of its (at most one) `ReflectionPlugin`
 * attribute declaration.
 *
 * Two discovery paths exist. The host catalog (`Discover`) filters by
 * assignability to the contract, materialises the attribute object and
 * sorts stably by `Order`. The sandbox (`Summaries`) filters by interface
 * full name, reads the raw attribute data and keeps enumeration order.
 */
module Catalog {
  import opened Wrappers
  import opened StableSort

  /** `typeof(IReflectionPlugin).FullName`. */
  const ContractFullName: string := "ConsoleSnippets.IReflectionPlugin"

  /** `int.MaxValue`, the order of a plugin that declares none. */
  const IntMax: int := 0x7FFF_FFFF

  type Int32 = x: int | -0x8000_0000 <= x <= 0x7FFF_FFFF

  /** The declared attribute: its constructor argument and its named `Order` argument, each possibly absent. */
  datatype AttributeData = AttributeData(description: Option<string>, order: Option<Int32>)

  /** What reflection reveals about one type of an assembly. */
  datatype TypeInfo = TypeInfo(
    name: string,
    fullName: Option<string>,
    isAbstract: bool,
    isClass: bool,
    interfaces: seq<string>,   // full names of every implemented interface
    attribute: Option<AttributeData>)

  /** The attribute object `GetCustomAttribute` builds: `Order` is 0 unless initialised. */
  datatype PluginAttribute = PluginAttribute(description: Option<string>, order: Int32)

  datatype Descriptor = Descriptor(pluginType: TypeInfo, attribute: Option<PluginAttribute>)

  /** What the sandbox reports per plugin type, read from metadata only. */
  datatype Summary = Summary(typeName: string, description: string, order: Int32)

  // ---------------------------------------------------------------------
  // Host discovery

  /** `typeof(IReflectionPlugin).IsAssignableFrom(t)`: the contract itself or an implementer. */
  predicate IsAssignableToContract(t: TypeInfo) {
    t.fullName == Some(ContractFullName) || ContractFullName in t.interfaces
  }

  predicate IsPluginType(t: TypeInfo) {
    !t.isAbstract && IsAssignableToContract(t)
  }

  /** The `Where` step of discovery, in enumeration order. */
  function PluginTypes(types: seq<TypeInfo>): (r: seq<TypeInfo>)
    ensures forall t :: t in r <==> t in types && IsPluginType(t)
    ensures |r| <= |types|
    ensures Distinct(types) ==> Distinct(r)
  {
    if types == [] then []
    else
      var rest := PluginTypes(types[1..]);
      if IsPluginType(types[0]) then
        assert types[0] !in types[1..] || !Distinct(types);
        [types[0]] + rest
      else rest
  }

  function Materialise(d: AttributeData): PluginAttribute {
    PluginAttribute(d.description, d.order.GetOr(0))
  }

  function Describe(t: TypeInfo): Descriptor {
    Descriptor(t, if t.attribute.Some? then Some(Materialise(t.attribute.value)) else None)
  }

  /** `Attribute?.Order ?? int.MaxValue`. */
  function OrderKey(d: Descriptor): int {
    if d.attribute.Some? then d.attribute.value.order else IntMax
  }

  /** The filter keeps enumeration order: filtering two parts in turn is filtering the whole. */
  lemma {:induction false} PluginTypesAppend(a: seq<TypeInfo>, b: seq<TypeInfo>)
    ensures PluginTypes(a + b) == PluginTypes(a) + PluginTypes(b)
    decreases |a|
  {
    if a == [] {
      assert a + b == b;
    } else {
      assert (a + b)[0] == a[0];
      assert (a + b)[1..] == a[1..] + b;
      PluginTypesAppend(a[1..], b);
    }
  }

  /** The descriptors of the plugin types in enumeration order, before sorting. */
  function Unsorted(types: seq<TypeInfo>): seq<Descriptor> {
    MapSeq(PluginTypes(types), Describe)
  }

  /** `ReflectionPluginCatalog.Discover` over the types of the contract's assembly. */
  function Discover(types: seq<TypeInfo>): (r: seq<Descriptor>)
    ensures forall i :: 0 <= i < |r| ==>
              r[i].pluginType in types && IsPluginType(r[i].pluginType) && r[i] == Describe(r[i].pluginType)
    ensures forall t :: t in types && IsPluginType(t) ==> Describe(t) in r
    ensures |r| == |PluginTypes(types)|
    ensures multiset(r) == multiset(Unsorted(types))
    ensures SortedBy(r, OrderKey)
  {
    var u := Unsorted(types);
    var r := SortBy(u, OrderKey);
    PermutationSameMembers(r, u);
    UnsortedMembers(types);
    r
  }

  /** Two sequences with the same multiset have the same length and the same members. */
  lemma PermutationSameMembers<T>(r: seq<T>, u: seq<T>)
    requires multiset(r) == multiset(u)
    ensures |r| == |u|
    ensures forall x :: x in r <==> x in u
  {
    assert |r| == |multiset(r)| == |multiset(u)| == |u|;
    forall x ensures x in r <==> x in u {
      assert x in r <==> x in multiset(r);
      assert x in u <==> x in multiset(u);
    }
  }

  /** The unsorted descriptors are exactly the descriptions of the plugin types. */
  lemma UnsortedMembers(types: seq<TypeInfo>)
    ensures |Unsorted(types)| == |PluginTypes(types)|
    ensures forall d :: d in Unsorted(types) ==>
              d.pluginType in types && IsPluginType(d.pluginType) && d == Describe(d.pluginType)
    ensures forall t :: t in types && IsPluginType(t) ==> Describe(t) in Unsorted(types)
  {
    var p := PluginTypes(types);
    var u := Unsorted(types);
    forall d | d in u ensures d.pluginType in types && IsPluginType(d.pluginType) && d == Describe(d.pluginType) {
      var k :| 0 <= k < |u| && u[k] == d;
      assert d == Describe(p[k]);
    }
    forall t | t in types && IsPluginType(t) ensures Describe(t) in u {
      var k :| 0 <= k < |p| && p[k] == t;
      assert u[k] == Describe(t);
    }
  }

  /** Discovery never lists a type twice when the assembly enumerates each type once. */
  lemma DiscoverDistinct(types: seq<TypeInfo>)
    requires Distinct(types)
    ensures Distinct(Discover(types))
  {
    var p := PluginTypes(types);
    var u := Unsorted(types);
    assert Distinct(u) by {
      forall i, j | 0 <= i < j < |u| ensures u[i] != u[j] {
        assert u[i].pluginType == p[i] && u[j].pluginType == p[j];
      }
    }
    SortByDistinct(u, OrderKey);
  }

  /** `OrderBy` is stable: descriptors sharing an order keep enumeration order. */
  lemma DiscoverStable(types: seq<TypeInfo>, k: int)
    ensures WithKey(Discover(types), OrderKey, k) == WithKey(Unsorted(types), OrderKey, k)
  {
    SortByStable(Unsorted(types), OrderKey, k);
  }

  /** A plugin without the attribute comes after every plugin with an order below `int.MaxValue`. */
  lemma UnattributedSortLast(types: seq<TypeInfo>, i: int, j: int)
    requires 0 <= i < |Discover(types)| && 0 <= j < |Discover(types)|
    requires Discover(types)[i].attribute.None?
    requires Discover(types)[j].attribute.Some? && Discover(types)[j].attribute.value.order < IntMax
    ensures j < i
  {
    var r := Discover(types);
    assert OrderKey(r[j]) < OrderKey(r[i]);
    SortedKeyOrder(r, OrderKey, i, j);
  }

  // ---------------------------------------------------------------------
  // Sandbox discovery (metadata only)

  /** `ImplementsPluginContract`: some implemented interface has the contract's full name. */
  predicate ImplementsPluginContract(t: TypeInfo, contractFullName: string) {
    contractFullName in t.interfaces
  }

  predicate IsSandboxPlugin(t: TypeInfo) {
    !t.isAbstract && t.isClass && ImplementsPluginContract(t, ContractFullName)
  }

  function SandboxPluginTypes(types: seq<TypeInfo>): (r: seq<TypeInfo>)
    ensures forall t :: t in r <==> t in types && IsSandboxPlugin(t)
    ensures |r| <= |types|
  {
    if types == [] then []
    else if IsSandboxPlugin(types[0]) then [types[0]] + SandboxPluginTypes(types[1..])
    else SandboxPluginTypes(types[1..])
  }

  /** The sandbox filter keeps enumeration order too. */
  lemma {:induction false} SandboxPluginTypesAppend(a: seq<TypeInfo>, b: seq<TypeInfo>)
    ensures SandboxPluginTypes(a + b) == SandboxPluginTypes(a) + SandboxPluginTypes(b)
    decreases |a|
  {
    if a == [] {
      assert a + b == b;
    } else {
      assert (a + b)[0] == a[0];
      assert (a + b)[1..] == a[1..] + b;
      SandboxPluginTypesAppend(a[1..], b);
    }
  }

  /** One summary: full name (else name), description or "", named `Order` or `int.MaxValue`. */
  function Summarize(t: TypeInfo): Summary {
    var description := if t.attribute.Some? then t.attribute.value.description.GetOr("") else "";
    var order := if t.attribute.Some? then t.attribute.value.order.GetOr(IntMax) else IntMax;
    Summary(t.fullName.GetOr(t.name), description, order)
  }

  /** The summaries of `LoadPluginDescriptors`, in enumeration order (no sorting). */
  function Summaries(types: seq<TypeInfo>): (r: seq<Summary>)
    ensures |r| == |SandboxPluginTypes(types)|
    ensures forall i :: 0 <= i < |r| ==> r[i] == Summarize(SandboxPluginTypes(types)[i])
    ensures forall i :: 0 <= i < |r| ==>
              r[i].typeName == SandboxPluginTypes(types)[i].fullName.GetOr(SandboxPluginTypes(types)[i].name)
    ensures forall i :: 0 <= i < |r| && SandboxPluginTypes(types)[i].attribute.None? ==> r[i].order == IntMax
    ensures forall i :: 0 <= i < |r| ==>
              (r[i].description == "" <==> SandboxPluginTypes(types)[i].attribute.None? ||
                                           SandboxPluginTypes(types)[i].attribute.value.description.GetOr("") == "")
  {
    MapSeq(SandboxPluginTypes(types), Summarize)
  }

  /** An attribute that states both its description and its `Order`. */
  predicate FullyAttributed(t: TypeInfo) {
    t.attribute.Some? ==> t.attribute.value.description.Some? && t.attribute.value.order.Some?
  }

  /** The summary the host would print for a descriptor. */
  function HostSummary(d: Descriptor): Summary {
    var description := if d.attribute.Some? then d.attribute.value.description.GetOr("") else "";
    Summary(d.pluginType.fullName.GetOr(d.pluginType.name), description, OrderKey(d))
  }

  lemma {:induction false} SameCandidates(types: seq<TypeInfo>)
    requires forall t :: t in types && IsPluginType(t) ==> IsSandboxPlugin(t)
    ensures PluginTypes(types) == SandboxPluginTypes(types)
  {
    if types != [] {
      assert forall t :: t in types[1..] ==> t in types;
      SameCandidates(types[1..]);
    }
  }

  function SummaryOrder(s: Summary): int {
    s.order
  }

  lemma SummariesOfCandidates(types: seq<TypeInfo>)
    requires forall t :: t in types && IsPluginType(t) ==> IsSandboxPlugin(t) && FullyAttributed(t)
    ensures MapSeq(Unsorted(types), HostSummary) == Summaries(types)
  {
    SameCandidates(types);
    var p := PluginTypes(types);
    var u := Unsorted(types);
    forall i | 0 <= i < |u| ensures HostSummary(u[i]) == Summarize(p[i]) {
      assert p[i] in types;
    }
  }

  /**
   * Metadata-based discovery agrees with type-based discovery: when every
   * plugin type is a class implementing the contract and every attribute
   * states description and order, the host's sorted descriptors,
   * summarised, are exactly the sandbox summaries stably sorted by order.
   */
  lemma SandboxAgreesWithHost(types: seq<TypeInfo>)
    requires forall t :: t in types && IsPluginType(t) ==> IsSandboxPlugin(t) && FullyAttributed(t)
    ensures MapSeq(Discover(types), HostSummary) == SortBy(Summaries(types), SummaryOrder)
  {
    var u := Unsorted(types);
    SortByMap(u, HostSummary, OrderKey, SummaryOrder);
    SummariesOfCandidates(types);
  }

  /** Where the two paths part: an attribute without a named `Order` sorts first on the host, last in the sandbox. */
  lemma OrderDefaultsDiffer(t: TypeInfo)
    requires IsSandboxPlugin(t)
    requires t.attribute.Some? && t.attribute.value.order.None?
    ensures IsPluginType(t)
    ensures OrderKey(Describe(t)) == 0
    ensures Summarize(t).order == IntMax
  {
  }
}
