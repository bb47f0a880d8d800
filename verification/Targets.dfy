/** src/dag/src/target.rs and src/common-core/src/interner.rs: build targets, the
    registry with its name, id and provider tables, and capability names. A bit
    vector is the set of its ones. */
module Targets {
  import opened Sequences

  datatype Kind = File | Phony | Abstract

  datatype Target = Target(id: int, name: string, kind: Kind, depends: set<int>, offers: set<int>, essential: bool)

  /** Ids and names are unique, which callers of `register` must see to for ids. */
  ghost predicate Distinct(reg: seq<Target>) {
    forall i, j :: 0 <= i < j < |reg| ==> reg[i].id != reg[j].id && reg[i].name != reg[j].name
  }

  lemma DistinctIds(reg: seq<Target>, t: Target, u: Target)
    requires Distinct(reg) && t in reg && u in reg
    ensures t.id == u.id ==> t == u
    ensures t.name == u.name ==> t == u
  {
  }

  function ById(reg: seq<Target>, id: int): (r: Option<Target>)
    ensures r.Some? ==> r.value in reg && r.value.id == id
    ensures r.None? ==> forall t :: t in reg ==> t.id != id
  {
    if reg == [] then None
    else
      assert reg == reg[..|reg| - 1] + [reg[|reg| - 1]];
      if reg[|reg| - 1].id == id then Some(reg[|reg| - 1]) else ById(reg[..|reg| - 1], id)
  }

  function ByName(reg: seq<Target>, name: string): (r: Option<Target>)
    ensures r.Some? ==> r.value in reg && r.value.name == name
    ensures r.None? ==> forall t :: t in reg ==> t.name != name
  {
    if reg == [] then None
    else
      assert reg == reg[..|reg| - 1] + [reg[|reg| - 1]];
      if reg[|reg| - 1].name == name then Some(reg[|reg| - 1]) else ByName(reg[..|reg| - 1], name)
  }

  /** The targets offering `cap`, in registration order. */
  function Providers(reg: seq<Target>, cap: int): (r: seq<Target>)
    ensures forall t :: t in r <==> t in reg && cap in t.offers
  {
    if reg == [] then []
    else
      var last := reg[|reg| - 1];
      assert reg == reg[..|reg| - 1] + [last];
      Providers(reg[..|reg| - 1], cap) + if cap in last.offers then [last] else []
  }

  function Ids(s: seq<Target>): set<int> {
    set t | t in s :: t.id
  }

  ghost predicate LastWithIdAt(reg: seq<Target>, id: int, i: int) {
    0 <= i < |reg| && reg[i].id == id && forall j :: i < j < |reg| ==> reg[j].id != id
  }

  /** The last target with this id, none if there is none. */
  ghost predicate LastWithId(reg: seq<Target>, id: int, r: Option<Target>) {
    match r
    case None => forall i :: 0 <= i < |reg| ==> reg[i].id != id
    case Some(t) => exists i :: LastWithIdAt(reg, id, i) && reg[i] == t
  }

  lemma LastWithIdExtends(reg: seq<Target>, id: int, i: int)
    requires reg != [] && LastWithIdAt(reg[..|reg| - 1], id, i) && reg[|reg| - 1].id != id
    ensures LastWithIdAt(reg, id, i) && reg[i] == reg[..|reg| - 1][i]
  {
    forall j | i < j < |reg| ensures reg[j].id != id {
      assert j < |reg| - 1 ==> reg[..|reg| - 1][j] == reg[j];
    }
  }

  lemma {:induction false} ByIdLast(reg: seq<Target>, id: int) returns (i: int)
    requires ById(reg, id).Some?
    ensures LastWithIdAt(reg, id, i) && reg[i] == ById(reg, id).value
  {
    hide LastWithIdAt;
    var n := |reg| - 1;
    if reg[n].id == id {
      i := n;
      LastIdIsEnd(reg, id);
    } else {
      i := ByIdLast(reg[..n], id);
      LastWithIdExtends(reg, id, i);
    }
  }

  lemma LastIdIsEnd(reg: seq<Target>, id: int)
    requires reg != [] && reg[|reg| - 1].id == id
    ensures LastWithIdAt(reg, id, |reg| - 1)
  {
  }

  lemma ByIdFindsLast(reg: seq<Target>, id: int)
    ensures LastWithId(reg, id, ById(reg, id))
  {
    hide LastWithIdAt;
    if ById(reg, id).Some? {
      var i := ByIdLast(reg, id);
    } else {
      forall i | 0 <= i < |reg| ensures reg[i].id != id {
        assert reg[i] in reg;
      }
    }
  }

  ghost predicate LastWithNameAt(reg: seq<Target>, name: string, i: int) {
    0 <= i < |reg| && reg[i].name == name && forall j :: i < j < |reg| ==> reg[j].name != name
  }

  /** The last target with this name, none if there is none. */
  ghost predicate LastWithName(reg: seq<Target>, name: string, r: Option<Target>) {
    match r
    case None => forall i :: 0 <= i < |reg| ==> reg[i].name != name
    case Some(t) => exists i :: LastWithNameAt(reg, name, i) && reg[i] == t
  }

  lemma LastWithNameExtends(reg: seq<Target>, name: string, i: int)
    requires reg != [] && LastWithNameAt(reg[..|reg| - 1], name, i) && reg[|reg| - 1].name != name
    ensures LastWithNameAt(reg, name, i) && reg[i] == reg[..|reg| - 1][i]
  {
    forall j | i < j < |reg| ensures reg[j].name != name {
      assert j < |reg| - 1 ==> reg[..|reg| - 1][j] == reg[j];
    }
  }

  lemma {:induction false} ByNameLast(reg: seq<Target>, name: string) returns (i: int)
    requires ByName(reg, name).Some?
    ensures LastWithNameAt(reg, name, i) && reg[i] == ByName(reg, name).value
  {
    hide LastWithNameAt;
    var n := |reg| - 1;
    if reg[n].name == name {
      i := n;
      LastNameIsEnd(reg, name);
    } else {
      i := ByNameLast(reg[..n], name);
      LastWithNameExtends(reg, name, i);
    }
  }

  lemma LastNameIsEnd(reg: seq<Target>, name: string)
    requires reg != [] && reg[|reg| - 1].name == name
    ensures LastWithNameAt(reg, name, |reg| - 1)
  {
  }

  lemma ByNameFindsLast(reg: seq<Target>, name: string)
    ensures LastWithName(reg, name, ByName(reg, name))
  {
    hide LastWithNameAt;
    if ByName(reg, name).Some? {
      var i := ByNameLast(reg, name);
    } else {
      forall i | 0 <= i < |reg| ensures reg[i].name != name {
        assert reg[i] in reg;
      }
    }
  }

  /** Exactly the targets that offer `cap`, in the order of the registry. */
  ghost predicate ListsOffering(reg: seq<Target>, cap: int, r: seq<Target>) {
    && (forall t :: t in r <==> t in reg && cap in t.offers)
    && (forall i: nat, j: nat, a: nat, b: nat |
          i < j < |r| && a < |reg| && b < |reg| && reg[a] == r[i] && reg[b] == r[j] :: a < b)
  }

  lemma ProvidersListOffering(reg: seq<Target>, cap: int)
    requires Distinct(reg)
    ensures ListsOffering(reg, cap, Providers(reg, cap))
  {
    var r := Providers(reg, cap);
    hide Providers, Distinct;
    forall i: nat, j: nat, a: nat, b: nat | i < j < |r| && a < |reg| && b < |reg| && reg[a] == r[i] && reg[b] == r[j]
      ensures a < b
    {
      ProvidersInOrder(reg, cap, i, j, a, b);
    }
  }

  /** The providers are listed in the order of the registry. */
  lemma {:induction false} ProvidersInOrder(reg: seq<Target>, cap: int, i: nat, j: nat, a: nat, b: nat)
    requires Distinct(reg) && i < j < |Providers(reg, cap)| && a < |reg| && b < |reg|
    requires reg[a] == Providers(reg, cap)[i] && reg[b] == Providers(reg, cap)[j]
    ensures a < b
  {
    var front, last := reg[..|reg| - 1], reg[|reg| - 1];
    ProvidersNoDup(reg, cap);
    var r := Providers(front, cap);
    if j < |r| {
      assert r[i] in r && r[j] in r;
      assert r[i] in front && r[j] in front;
      ProvidersInOrder(front, cap, i, j, a, b);
    } else {
      assert reg[b] == last && reg[a] != last;
    }
  }

  lemma {:induction false} ProvidersNoDup(reg: seq<Target>, cap: int)
    requires Distinct(reg)
    ensures NoDup(Providers(reg, cap)) && Distinct(Providers(reg, cap))
  {
    if reg != [] {
      var front, last := reg[..|reg| - 1], reg[|reg| - 1];
      ProvidersNoDup(front, cap);
      forall t | t in Providers(front, cap) ensures t.id != last.id && t.name != last.name {
        assert t in front;
      }
    }
  }

  // Capability names: the interner's index vector.

  function CapName(caps: seq<string>, cap: int): (r: Option<string>) {
    if 0 <= cap < |caps| then Some(caps[cap]) else None
  }

  function CapIndex(caps: seq<string>, name: string): (r: Option<int>)
    ensures r.Some? ==> 0 <= r.value < |caps| && caps[r.value] == name
    ensures r.None? ==> name !in caps
  {
    if caps == [] then None
    else
      assert caps == caps[..|caps| - 1] + [caps[|caps| - 1]];
      if caps[|caps| - 1] == name then Some(|caps| - 1) else CapIndex(caps[..|caps| - 1], name)
  }

  ghost predicate NameTable(byName: map<string, int>, targets: seq<Target>) {
    && (forall n :: n in byName <==> ByName(targets, n).Some?)
    && (forall n :: n in byName ==> 0 <= byName[n] < |targets| && ByName(targets, n) == Some(targets[byName[n]]))
  }

  ghost predicate BitTable(byBitIndex: map<int, int>, targets: seq<Target>) {
    && (forall b :: b in byBitIndex <==> ById(targets, b).Some?)
    && (forall b :: b in byBitIndex ==>
          0 <= byBitIndex[b] < |targets| && ById(targets, b) == Some(targets[byBitIndex[b]]))
  }

  ghost predicate ProviderTable(providers: map<int, seq<int>>, targets: seq<Target>) {
    forall c :: ProviderIds(providers, c) == IdSeq(Providers(targets, c))
  }

  lemma NameTableHas(byName: map<string, int>, targets: seq<Target>, name: string)
    requires NameTable(byName, targets)
    ensures name in byName <==> ByName(targets, name).Some?
  {
  }

  lemma DistinctAppend(targets: seq<Target>, t: Target)
    requires Distinct(targets) && ByName(targets, t.name).None? && ById(targets, t.id).None?
    ensures Distinct(targets + [t])
  {
  }

  /** Push `id` under each capability once. */
  method PushProvider(providers: map<int, seq<int>>, caps: seq<int>, id: int) returns (table: map<int, seq<int>>)
    requires NoDup(caps)
    ensures forall c :: ProviderIds(table, c) == ProviderIds(providers, c) + if c in caps then [id] else []
  {
    table := providers;
    for i := 0 to |caps|
      invariant forall c :: ProviderIds(table, c) == ProviderIds(providers, c) + if c in caps[..i] then [id] else []
    {
      assert caps[i] !in caps[..i];
      assert caps[..i + 1] == caps[..i] + [caps[i]];
      table := table[caps[i] := ProviderIds(table, caps[i]) + [id]];
    }
    assert caps[..|caps|] == caps;
  }

  /** The targets with these ids; an id without a target is passed over. */
  method FindAll(targets: seq<Target>, byBitIndex: map<int, int>, ids: seq<int>) returns (r: seq<Target>)
    requires BitTable(byBitIndex, targets) && forall i :: 0 <= i < |ids| ==> ById(targets, ids[i]).Some?
    ensures |r| == |ids| && forall i :: 0 <= i < |ids| ==> Some(r[i]) == ById(targets, ids[i])
  {
    hide ById;
    r := [];
    for i := 0 to |ids|
      invariant |r| == i && forall j :: 0 <= j < i ==> Some(r[j]) == ById(targets, ids[j])
    {
      if ids[i] in byBitIndex {
        r := r + [targets[byBitIndex[ids[i]]]];
      }
    }
  }

  class TargetRegistry {
    var targets: seq<Target>
    var byName: map<string, int>
    var byBitIndex: map<int, int>
    var providers: map<int, seq<int>>

    /** The three tables are what the target list says they are. */
    ghost predicate Valid()
      reads this
    {
      && NameTable(byName, targets)
      && BitTable(byBitIndex, targets)
      && ProviderTable(providers, targets)
    }

    constructor ()
      ensures Valid() && targets == []
    {
      targets, byName, byBitIndex, providers := [], map[], map[], map[];
    }

    /** Rejects a taken name; a taken id it accepts, and lookups then find the later
        target. */
    method Register(target: Target) returns (ok: bool)
      requires Valid()
      modifies this
      ensures Valid()
      ensures ok <==> ByName(old(targets), target.name).None?
      ensures targets == if ok then old(targets) + [target] else old(targets)
      ensures Distinct(old(targets)) && (ok ==> ById(old(targets), target.id).None?) ==> Distinct(targets)
    {
      NameTableHas(byName, targets, target.name);
      hide NameTable, BitTable, ProviderTable, Distinct, ById, ByName, Providers, ProviderIds, Elems, NoDup;
      if target.name in byName {
        return false;
      }
      if Distinct(targets) && ById(targets, target.id).None? {
        DistinctAppend(targets, target);
      }
      var idx := |targets|;
      var caps := Enumerate(target.offers);
      var table := PushProvider(providers, caps, target.id);
      ProviderTableAppend(providers, targets, target, table);
      LookupsAppend(byName, byBitIndex, targets, target);
      byName := byName[target.name := idx];
      byBitIndex := byBitIndex[target.id := idx];
      providers := table;
      targets := targets + [target];
      return true;
    }

    method Get(name: string) returns (r: Option<Target>)
      requires Valid()
      ensures r == ByName(targets, name) && LastWithName(targets, name, r)
    {
      ByNameFindsLast(targets, name);
      hide LastWithName;
      if name !in byName {
        return None;
      }
      return Some(targets[byName[name]]);
    }

    method GetByBitIndex(bit: int) returns (r: Option<Target>)
      requires Valid()
      ensures r == ById(targets, bit) && LastWithId(targets, bit, r)
    {
      ByIdFindsLast(targets, bit);
      hide LastWithId;
      if bit !in byBitIndex {
        return None;
      }
      return Some(targets[byBitIndex[bit]]);
    }

    /** The targets that the ids of the providers lead to: the providers themselves
        where ids are unique. */
    method GetProviders(cap: int) returns (r: seq<Target>)
      requires Valid()
      ensures |r| == |Providers(targets, cap)|
      ensures forall i :: 0 <= i < |r| ==> Some(r[i]) == ById(targets, Providers(targets, cap)[i].id)
      ensures Distinct(targets) ==> r == Providers(targets, cap) && ListsOffering(targets, cap, r)
    {
      ProvidersRegistered(providers, targets, cap);
      hide NameTable, BitTable, ProviderTable, Distinct, Providers, ProviderIds, ById, ListsOffering;
      r := FindAll(targets, byBitIndex, ProviderIds(providers, cap));
      ListedById(targets, cap, r);
    }
  }

  lemma ProvidersRegistered(providers: map<int, seq<int>>, targets: seq<Target>, cap: int)
    requires ProviderTable(providers, targets)
    ensures var ids, expected := ProviderIds(providers, cap), Providers(targets, cap);
            && |ids| == |expected|
            && (forall i :: 0 <= i < |ids| ==> ids[i] == expected[i].id && ById(targets, ids[i]).Some?)
  {
    var expected := Providers(targets, cap);
    assert ProviderIds(providers, cap) == IdSeq(expected);
    hide Providers;
    forall i | 0 <= i < |expected| ensures ById(targets, expected[i].id).Some? {
      assert expected[i] in expected;
    }
  }

  lemma ListedById(targets: seq<Target>, cap: int, r: seq<Target>)
    requires |r| == |Providers(targets, cap)|
    requires forall i :: 0 <= i < |r| ==> Some(r[i]) == ById(targets, Providers(targets, cap)[i].id)
    ensures Distinct(targets) ==> r == Providers(targets, cap) && ListsOffering(targets, cap, r)
  {
    hide Providers, ById, ListsOffering, Distinct;
    if Distinct(targets) {
      SameById(targets, r, Providers(targets, cap));
      ProvidersListOffering(targets, cap);
    }
  }

  lemma SameById(targets: seq<Target>, r: seq<Target>, expected: seq<Target>)
    requires Distinct(targets) && |r| == |expected| && forall t :: t in expected ==> t in targets
    requires forall i :: 0 <= i < |r| ==> Some(r[i]) == ById(targets, expected[i].id)
    ensures r == expected
  {
    forall i | 0 <= i < |r| ensures r[i] == expected[i] {
      assert expected[i] in expected;
      DistinctIds(targets, r[i], expected[i]);
    }
  }

  function ProviderIds(table: map<int, seq<int>>, cap: int): seq<int> {
    if cap in table then table[cap] else []
  }

  ghost function IdSeq(s: seq<Target>): (r: seq<int>)
    ensures |r| == |s|
  {
    seq(|s|, i requires 0 <= i < |s| => s[i].id)
  }

  lemma IdSeqAppend(s: seq<Target>, t: Target)
    ensures IdSeq(s + [t]) == IdSeq(s) + [t.id]
  {
  }

  lemma ProvidersAppend(reg: seq<Target>, t: Target, cap: int)
    ensures Providers(reg + [t], cap) == Providers(reg, cap) + if cap in t.offers then [t] else []
  {
  }

  lemma ProviderTableAppend(providers: map<int, seq<int>>, targets: seq<Target>, t: Target, table: map<int, seq<int>>)
    requires ProviderTable(providers, targets)
    requires forall c :: ProviderIds(table, c) == ProviderIds(providers, c) + if c in t.offers then [t.id] else []
    ensures ProviderTable(table, targets + [t])
  {
    forall c ensures ProviderIds(table, c) == IdSeq(Providers(targets + [t], c)) {
      ProvidersAppend(targets, t, c);
      IdSeqAppend(Providers(targets, c), t);
      assert ProviderIds(providers, c) == IdSeq(Providers(targets, c));
    }
  }

  lemma LookupsAppend(byName: map<string, int>, byBitIndex: map<int, int>, reg: seq<Target>, t: Target)
    requires NameTable(byName, reg) && BitTable(byBitIndex, reg)
    ensures NameTable(byName[t.name := |reg|], reg + [t])
    ensures BitTable(byBitIndex[t.id := |reg|], reg + [t])
  {
  }
}
