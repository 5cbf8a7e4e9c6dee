/** Sequences of registry operations, and the hot reload of a plugin as one such sequence. */
module PluginReload {
  import opened Options
  import opened GoStrings
  import opened RegistrySpec
  import opened Registry

  // --- any sequence of operations ---------------------------------------------------

  datatype Op =
    | Add(p: Provider)
    | Swap(base: string, oldProv: Provider, newProv: Provider)
    | Remove(id: string)
    | RemovePlugin(pluginID: string)
    | Prefer(id: string, source: string)

  /** Base ids carry no '@', which separates them from plugin names in handles. */
  predicate PlainIds(op: Op) {
    match op
    case Add(p) => '@' !in p.id
    case Prefer(id, _) => '@' !in id
    case _ => true
  }

  predicate DistinctSlots(list: seq<Candidate>) {
    forall i, j :: 0 <= i < j < |list| ==> !SameSlot(list[i], list[j])
  }

  ghost predicate UniqueSlots(cands: Candidates) {
    forall b :: b in cands ==> DistinctSlots(cands[b])
  }

  lemma {:induction false} UpsertElement(list: seq<Candidate>, c: Candidate, k: nat)
    requires k < |Upsert(list, c)|
    ensures |list| <= |Upsert(list, c)| <= |list| + 1
    ensures Upsert(list, c)[k] == c || (k < |list| && Upsert(list, c)[k] == list[k])
    ensures k < |list| ==> SameSlot(Upsert(list, c)[k], list[k])
    ensures k == |list| ==> forall i :: 0 <= i < |list| ==> !SameSlot(list[i], c)
    ensures k < |list| && Upsert(list, c)[k] != list[k] ==> SameSlot(list[k], c)
    decreases |list|
  {
    if list != [] && !SameSlot(list[0], c) && k > 0 {
      UpsertElement(list[1..], c, k - 1);
    } else if list != [] && !SameSlot(list[0], c) {
      if |Upsert(list[1..], c)| > 0 {
        UpsertElement(list[1..], c, 0);
      }
    }
  }

  lemma UpsertKeepsSlotsDistinct(list: seq<Candidate>, c: Candidate)
    requires DistinctSlots(list)
    ensures DistinctSlots(Upsert(list, c))
  {
    forall k | 0 <= k < |Upsert(list, c)|
      ensures Upsert(list, c)[k] == c || (k < |list| && Upsert(list, c)[k] == list[k])
      ensures k < |list| ==> SameSlot(Upsert(list, c)[k], list[k])
      ensures k == |list| ==> forall i :: 0 <= i < |list| ==> !SameSlot(list[i], c)
      ensures k <= |list|
    {
      UpsertElement(list, c, k);
    }
  }

  lemma {:induction false} SwapKeepsSlots(list: seq<Candidate>, p: Provider, q: Provider)
    ensures |SwapFirst(list, p, q)| == |list|
    ensures forall k :: 0 <= k < |list| ==> SameSlot(SwapFirst(list, p, q)[k], list[k])
    decreases |list|
  {
    if list != [] && list[0].provider != p {
      SwapKeepsSlots(list[1..], p, q);
    }
  }

  lemma {:induction false} ExcludingKeeps(list: seq<Candidate>, out: Candidate -> bool)
    ensures forall c :: c in Excluding(list, out) <==> c in list && !out(c)
    ensures DistinctSlots(list) ==> DistinctSlots(Excluding(list, out))
    decreases |list|
  {
    if list != [] {
      var front, last := list[..|list| - 1], list[|list| - 1];
      ExcludingKeeps(front, out);
      assert list == front + [last];
      forall i | 0 <= i < |Excluding(front, out)| && DistinctSlots(list)
        ensures !SameSlot(Excluding(front, out)[i], last)
      {
        var c := Excluding(front, out)[i];
        assert c in front;
        var k :| 0 <= k < |front| && front[k] == c;
        assert !SameSlot(list[k], list[|list| - 1]);
      }
    }
  }

  function CandidatesAfter(cands: Candidates, op: Op): Candidates {
    match op
    case Add(p) => Registered(cands, p)
    case Swap(base, oldProv, newProv) =>
      if exists c :: c in ListFor(cands, base) && c.provider == oldProv
      then cands[base := SwapFirst(ListFor(cands, base), oldProv, newProv)] else cands
    case Remove(id) =>
      var base := Before(id, '@');
      WithList(cands, base, Excluding(ListFor(cands, base), (c: Candidate) => Unregistered(id, c)))
    case RemovePlugin(pluginID) => WithoutPlugin(cands, pluginID)
    case Prefer(_, _) => cands
  }

  function PrefsAfter(prefs: map<string, string>, op: Op): map<string, string> {
    if op.Prefer? then prefs[op.id := op.source] else prefs
  }

  function CandidatesOf(ops: seq<Op>): Candidates {
    if ops == [] then map[] else CandidatesAfter(CandidatesOf(ops[..|ops| - 1]), ops[|ops| - 1])
  }

  function PrefsOf(ops: seq<Op>): map<string, string> {
    if ops == [] then map[] else PrefsAfter(PrefsOf(ops[..|ops| - 1]), ops[|ops| - 1])
  }

  /** Runs one operation on the registry. */
  method Apply(r: Registry, op: Op)
    requires r.Valid()
    modifies r
    ensures PlainIds(op) ==> r.Valid()
    ensures r.candidates == CandidatesAfter(old(r.candidates), op) && r.userPrefs == PrefsAfter(old(r.userPrefs), op)
    ensures old(UniqueSlots(r.candidates)) ==> UniqueSlots(r.candidates)
  {
    hide Target, Lookup, MetadataOf, ContentOf, TrackingOf, Upsert, Excluding, SwapFirst, SameSlot;
    ghost var before := r.candidates;
    match op
    case Add(p) =>
      r.Register(p);
      UpsertKeepsDistinct(before, p);
    case Swap(base, oldProv, newProv) =>
      var _ := r.SwapProvider(base, oldProv, newProv);
      SwapKeepsDistinct(before, base, oldProv, newProv);
    case Remove(id) =>
      r.Unregister(id);
      ExcludingKeeps(ListFor(before, Before(id, '@')), (c: Candidate) => Unregistered(id, c));
    case RemovePlugin(pluginID) =>
      r.UnregisterPlugin(pluginID);
      forall b | b in before ensures DistinctSlots(before[b]) ==> DistinctSlots(Excluding(before[b], OfPlugin(pluginID))) {
        ExcludingKeeps(before[b], OfPlugin(pluginID));
      }
    case Prefer(id, source) =>
      r.SetUserPreference(id, source);
  }

  lemma UpsertKeepsDistinct(cands: Candidates, p: Provider)
    ensures UniqueSlots(cands) ==> UniqueSlots(Registered(cands, p))
  {
    if DistinctSlots(ListFor(cands, p.id)) {
      UpsertKeepsSlotsDistinct(ListFor(cands, p.id), CandidateOf(p));
    }
  }

  lemma SwapKeepsDistinct(cands: Candidates, base: string, p: Provider, q: Provider)
    ensures UniqueSlots(cands) ==> UniqueSlots(cands[base := SwapFirst(ListFor(cands, base), p, q)])
  {
    SwapKeepsSlots(ListFor(cands, base), p, q);
  }

  /** From an empty registry, after every operation of any sequence all four maps are exact. */
  method Replay(ops: seq<Op>) returns (r: Registry)
    requires forall i :: 0 <= i < |ops| ==> PlainIds(ops[i])
    ensures r.Valid() && r.candidates == CandidatesOf(ops) && r.userPrefs == PrefsOf(ops)
    ensures UniqueSlots(r.candidates)
  {
    hide CandidatesAfter, PrefsAfter, UniqueSlots;
    r := new Registry();
    NoSlots();
    for i := 0 to |ops|
      invariant fresh(r) && r.Valid() && UniqueSlots(r.candidates)
      invariant r.candidates == CandidatesOf(ops[..i]) && r.userPrefs == PrefsOf(ops[..i])
    {
      assert ops[..i + 1][..i] == ops[..i];
      Apply(r, ops[i]);
    }
    assert ops[..|ops|] == ops;
  }

  lemma NoSlots()
    ensures UniqueSlots(map[])
  {
  }

  // --- reload -----------------------------------------------------------------------

  /** A launched plugin process and its adapters, in the order the adapter map yields them. */
  datatype Instance = Instance(pluginID: string, executablePath: string, version: string, adapters: seq<Provider>)

  function RegisterAll(cands: Candidates, adapters: seq<Provider>): Candidates {
    if adapters == [] then cands
    else Registered(RegisterAll(cands, adapters[..|adapters| - 1]), adapters[|adapters| - 1])
  }

  datatype ReloadError = NotFound | LaunchFailed

  class PluginManager {
    const registry: Registry
    var instances: map<string, Instance>
    var binaryPathMap: map<string, string>

    constructor (registry: Registry)
      ensures this.registry == registry && instances == map[] && binaryPathMap == map[]
    {
      this.registry := registry;
      instances, binaryPathMap := map[], map[];
    }

    /** `launched` is what starting the binary yields, None if it fails. */
    method Reload(pluginID: string, launched: Option<Instance>) returns (err: Option<ReloadError>)
      requires registry.Valid()
      requires launched.Some? ==> forall a :: a in launched.value.adapters ==> '@' !in a.id
      modifies this, registry
      ensures registry.Valid() && registry.userPrefs == old(registry.userPrefs)
      ensures err == if pluginID !in old(instances) then Some(NotFound) else if launched == None then Some(LaunchFailed) else None
      ensures err.Some? ==> registry.candidates == old(registry.candidates) && instances == old(instances)
                            && binaryPathMap == old(binaryPathMap)
      ensures err == None ==>
                && registry.candidates == RegisterAll(old(registry.candidates), launched.value.adapters)
                && instances == old(instances)[pluginID := launched.value]
                && binaryPathMap == old(binaryPathMap)[pluginID :=
                     if pluginID in old(binaryPathMap) && old(binaryPathMap)[pluginID] != "" then old(binaryPathMap)[pluginID]
                     else old(instances)[pluginID].executablePath]
    {
      hide Target, Lookup, Upsert, MetadataOf, ContentOf, TrackingOf, Registered, CandidateOf;
      if pluginID !in instances {
        return Some(NotFound);
      }
      var binaryPath := if pluginID in binaryPathMap then binaryPathMap[pluginID] else "";
      if binaryPath == "" {
        binaryPath := instances[pluginID].executablePath;
      }
      if launched == None {
        return Some(LaunchFailed);
      }
      var adapters := launched.value.adapters;
      for i := 0 to |adapters|
        invariant registry.Valid() && registry.userPrefs == old(registry.userPrefs)
        invariant registry.candidates == RegisterAll(old(registry.candidates), adapters[..i])
        invariant instances == old(instances) && binaryPathMap == old(binaryPathMap)
      {
        assert adapters[..i + 1][..i] == adapters[..i];
        registry.Register(adapters[i]);
      }
      assert adapters[..|adapters|] == adapters;
      instances := instances[pluginID := launched.value];
      binaryPathMap := binaryPathMap[pluginID := binaryPath];
      return None;
    }
  }

  lemma RegisterKeepsRoutes(cands: Candidates, prefs: map<string, string>, p: Provider, h: string)
    requires Target(cands, prefs, h).Some?
    ensures Target(Registered(cands, p), prefs, h).Some?
  {
    var base := Before(h, '@');
    if base == p.id {
      var list, c := ListFor(cands, base), CandidateOf(p);
      LastUnderFinds(list, base, h);
      LastUnderFinds(Upsert(list, c), base, h);
      assert Upsert(list, c) != [];
      if base != h {
        var i :| 0 <= i < |list| && HandleOf(base, list[i]) == Some(h);
        UpsertElement(list, c, 0);
        UpsertElement(list, c, i);
        assert HandleOf(base, Upsert(list, c)[i]) == Some(h);
      }
    }
  }

  /** In any order of the Register calls, every handle routed before is still routed after each call. */
  lemma {:induction false} ReloadIsGapFree(cands: Candidates, prefs: map<string, string>, adapters: seq<Provider>, k: nat, h: string)
    requires k <= |adapters| && Target(cands, prefs, h).Some?
    ensures Target(RegisterAll(cands, adapters[..k]), prefs, h).Some?
    decreases k
  {
    if k > 0 {
      ReloadIsGapFree(cands, prefs, adapters, k - 1, h);
      assert adapters[..k][..k - 1] == adapters[..k - 1];
      RegisterKeepsRoutes(RegisterAll(cands, adapters[..k - 1]), prefs, adapters[k - 1], h);
    }
  }

  predicate IsAdapter(p: Provider, pluginID: string) {
    p.pluginID == Some(pluginID) && p.builtIn == Some(false)
  }

  /** The old adapters still registered sit in the plugin's own slot of some base id. */
  ghost predicate OldInSlot(cands: Candidates, outgoing: set<Provider>, pluginID: string) {
    forall b, c :: b in cands && c in cands[b] && c.provider in outgoing ==> c.pluginID == pluginID && !c.isBuiltIn
  }

  ghost predicate HoldsOld(cands: Candidates, outgoing: set<Provider>, b: string) {
    b in cands && exists c :: c in cands[b] && c.provider in outgoing
  }

  /** The provider comes as a candidate of the plugin's slot; Reload does not check that its plugin id is the old one. */
  predicate InSlot(p: Provider, pluginID: string) {
    CandidateOf(p).pluginID == pluginID && !CandidateOf(p).isBuiltIn
  }

  /** Some adapter comes into the plugin's slot of the base id. */
  predicate Offers(adapters: seq<Provider>, pluginID: string, b: string) {
    exists i :: 0 <= i < |adapters| && adapters[i].id == b && InSlot(adapters[i], pluginID)
  }

  /** Registering a new adapter evicts the old one of its base id exactly from its own slot, and disturbs no other. */
  lemma RegisterEvicts(cands: Candidates, outgoing: set<Provider>, p: Provider, pluginID: string, b: string)
    requires UniqueSlots(cands) && OldInSlot(cands, outgoing, pluginID) && p !in outgoing
    ensures UniqueSlots(Registered(cands, p)) && OldInSlot(Registered(cands, p), outgoing, pluginID)
    ensures HoldsOld(Registered(cands, p), outgoing, b)
            <==> HoldsOld(cands, outgoing, b) && !(b == p.id && InSlot(p, pluginID))
  {
    var list, c := ListFor(cands, p.id), CandidateOf(p);
    var after := Registered(cands, p);
    UpsertKeepsDistinct(cands, p);
    forall d: Candidate | d in after[p.id] && d.provider in outgoing ensures d in list && !InSlot(p, pluginID) {
      var k :| 0 <= k < |after[p.id]| && after[p.id][k] == d;
      UpsertElement(list, c, k);
      if SameSlot(d, c) {
        UpsertReplaces(list, c, k);
      }
    }
    if HoldsOld(cands, outgoing, p.id) && !InSlot(p, pluginID) {
      var d: Candidate :| d in list && d.provider in outgoing;
      var k :| 0 <= k < |list| && list[k] == d;
      UpsertLonger(list, c);
      UpsertElement(list, c, k);
      assert d in after[p.id];
    }
  }

  lemma UpsertLonger(list: seq<Candidate>, c: Candidate)
    ensures |list| <= |Upsert(list, c)|
  {
    if list == [] {
      assert Upsert(list, c) == [c];
    } else {
      assert |Upsert(list, c)| > 0;
      UpsertElement(list, c, 0);
    }
  }

  /** A candidate of the new one's slot does not survive beside it. */
  lemma {:induction false} UpsertReplaces(list: seq<Candidate>, c: Candidate, k: nat)
    requires DistinctSlots(list) && k < |list| && SameSlot(list[k], c)
    ensures k < |Upsert(list, c)| && Upsert(list, c)[k] == c
    decreases |list|
  {
    if !SameSlot(list[0], c) {
      UpsertReplaces(list[1..], c, k - 1);
    }
  }

  lemma {:induction false} ReloadEvicts(cands: Candidates, outgoing: set<Provider>, adapters: seq<Provider>, pluginID: string, b: string)
    requires UniqueSlots(cands) && OldInSlot(cands, outgoing, pluginID)
    requires forall i :: 0 <= i < |adapters| ==> adapters[i] !in outgoing
    ensures UniqueSlots(RegisterAll(cands, adapters)) && OldInSlot(RegisterAll(cands, adapters), outgoing, pluginID)
    ensures HoldsOld(RegisterAll(cands, adapters), outgoing, b) <==> HoldsOld(cands, outgoing, b) && !Offers(adapters, pluginID, b)
    decreases |adapters|
  {
    if adapters != [] {
      var front, p := adapters[..|adapters| - 1], adapters[|adapters| - 1];
      ReloadEvicts(cands, outgoing, front, pluginID, b);
      RegisterEvicts(RegisterAll(cands, front), outgoing, p, pluginID, b);
      assert forall i :: 0 <= i < |front| ==> front[i] == adapters[i];
      assert Offers(adapters, pluginID, b) <==> Offers(front, pluginID, b) || (p.id == b && InSlot(p, pluginID));
    }
  }

  lemma {:induction false} SlotDecides(list: seq<Candidate>, base: string, pluginID: string, i: nat)
    requires DistinctSlots(list) && i < |list| && pluginID != "" && pluginID != "builtin"
    requires list[i].pluginID == pluginID && !list[i].isBuiltIn
    ensures LastUnder(list, base, base + "@" + pluginID) == Some(list[i].provider)
    decreases |list|
  {
    var h := base + "@" + pluginID;
    var last := list[|list| - 1];
    if i < |list| - 1 {
      assert !SameSlot(list[i], last);
      HandleNames(base, if last.isBuiltIn then "builtin" else last.pluginID, pluginID);
      SlotDecides(list[..|list| - 1], base, pluginID, i);
    }
  }

  /**
   * After a reload no handle, primary or namespaced, leads to an old adapter if and only if the new instance
   * offers every provider id an old adapter was registered under, and that under the old plugin id.
   */
  lemma ReloadLeavesNoOldRoute(cands: Candidates, prefs: map<string, string>, outgoing: set<Provider>,
                               adapters: seq<Provider>, pluginID: string)
    requires forall b :: b in cands ==> '@' !in b
    requires UniqueSlots(cands) && OldInSlot(cands, outgoing, pluginID)
    requires pluginID != "" && pluginID != "builtin"
    requires forall i :: 0 <= i < |adapters| ==> adapters[i] !in outgoing
    ensures (forall h :: Target(RegisterAll(cands, adapters), prefs, h).Some? ==>
                           Target(RegisterAll(cands, adapters), prefs, h).value !in outgoing)
            <==> (forall b :: HoldsOld(cands, outgoing, b) ==> Offers(adapters, pluginID, b))
  {
    hide Upsert, Winner, LastUnder, HandleOf, SameSlot, Registered;
    var after := RegisterAll(cands, adapters);
    forall b ensures HoldsOld(after, outgoing, b) <==> HoldsOld(cands, outgoing, b) && !Offers(adapters, pluginID, b) {
      ReloadEvicts(cands, outgoing, adapters, pluginID, b);
    }
    ReloadEvicts(cands, outgoing, adapters, pluginID, "");
    if b :| HoldsOld(cands, outgoing, b) && !Offers(adapters, pluginID, b) {
      var c: Candidate :| c in after[b] && c.provider in outgoing;
      var i :| 0 <= i < |after[b]| && after[b][i] == c;
      SlotDecides(after[b], b, pluginID, i);
      var h := b + "@" + pluginID;
      BeforeConcat(b, '@', pluginID);
      assert h == b + ['@'] + pluginID;
      assert Target(after, prefs, h) == Some(c.provider);
    } else {
      forall h | Target(after, prefs, h).Some? ensures Target(after, prefs, h).value !in outgoing {
        TargetIsCandidate(after, prefs, h);
        assert !HoldsOld(after, outgoing, Before(h, '@'));
      }
    }
  }

  /** A reload whose new version offers nothing leaves the old adapter in its routes. */
  lemma DroppedProviderStaysRouted(outgoing: Provider, pluginID: string)
    requires IsAdapter(outgoing, pluginID) && '@' !in outgoing.id
    ensures var cands := Registered(map[], outgoing);
            && OldInSlot(cands, {outgoing}, pluginID) && !Offers([], pluginID, outgoing.id)
            && Target(RegisterAll(cands, []), map[], outgoing.id) == Some(outgoing)
  {
    var cands := Registered(map[], outgoing);
    BeforeIsPrefix(outgoing.id, '@');
    var list := [CandidateOf(outgoing)];
    assert ListFor(cands, outgoing.id) == list && FirstBuiltIn(list) == FirstBuiltIn(list[1..]) == None;
    assert Winner(list, "") == Newest(list) == list[0];
  }

  /** Nor does one evict it that offers the same id under another plugin id. */
  lemma RenamedPluginKeepsOldRoute(outgoing: Provider, incoming: Provider, pluginID: string)
    requires IsAdapter(outgoing, pluginID) && '@' !in outgoing.id && pluginID != "" && pluginID != "builtin"
    requires incoming.id == outgoing.id && !InSlot(incoming, pluginID)
    ensures var after := RegisterAll(Registered(map[], outgoing), [incoming]);
            Target(after, map[], outgoing.id + "@" + pluginID) == Some(outgoing)
  {
    var b := outgoing.id;
    var cands := Registered(map[], outgoing);
    assert RegisterAll(cands, []) == cands && [incoming][..0] == [];
    var after := RegisterAll(cands, [incoming]);
    assert ListFor(cands, b) == [CandidateOf(outgoing)];
    assert after == Registered(cands, incoming);
    assert [CandidateOf(outgoing)][1..] == [] && Upsert([], CandidateOf(incoming)) == [CandidateOf(incoming)];
    assert after[b] == [CandidateOf(outgoing), CandidateOf(incoming)];
    SlotDecides(after[b], b, pluginID, 0);
    BeforeConcat(b, '@', pluginID);
    assert b + "@" + pluginID == b + ['@'] + pluginID;
  }
}
