/** The provider registry: six maps updated in step, whatever sequence of operations runs. */
module Registry {
  import opened Options
  import opened GoStrings
  import opened Versions
  import opened RegistrySpec
  import opened Sequences

  function MetadataOf(provs: map<string, Provider>): map<string, Provider> {
    map h | h in provs && provs[h].metadata :: provs[h]
  }

  function ContentOf(provs: map<string, Provider>): map<string, Provider> {
    map h | h in provs && provs[h].content :: provs[h]
  }

  function TrackingOf(provs: map<string, Provider>): map<string, Provider> {
    map h | h in provs && provs[h].tracking :: provs[h]
  }

  lemma MapsWithout(provs: map<string, Provider>, h: string)
    ensures MetadataOf(provs - {h}) == MetadataOf(provs) - {h}
    ensures ContentOf(provs - {h}) == ContentOf(provs) - {h}
    ensures TrackingOf(provs - {h}) == TrackingOf(provs) - {h}
  {
  }

  lemma MetadataWith(provs: map<string, Provider>, h: string, p: Provider)
    ensures MetadataOf(provs[h := p]) == if p.metadata then MetadataOf(provs)[h := p] else MetadataOf(provs) - {h}
  {
  }

  lemma ContentWith(provs: map<string, Provider>, h: string, p: Provider)
    ensures ContentOf(provs[h := p]) == if p.content then ContentOf(provs)[h := p] else ContentOf(provs) - {h}
  {
  }

  lemma TrackingWith(provs: map<string, Provider>, h: string, p: Provider)
    ensures TrackingOf(provs[h := p]) == if p.tracking then TrackingOf(provs)[h := p] else TrackingOf(provs) - {h}
  {
  }

  function Excluding(list: seq<Candidate>, out: Candidate -> bool): seq<Candidate> {
    if list == [] then []
    else Excluding(list[..|list| - 1], out) + if out(list[|list| - 1]) then [] else [list[|list| - 1]]
  }

  function Swapped(c: Candidate, p: Provider): Candidate {
    c.(provider := p, version := if p.version.Some? && p.version.value != "" then p.version.value else c.version)
  }

  /** `after` is the list with the i-th candidate, the first of the old provider, now serving the new one. */
  predicate SwappedAt(list: seq<Candidate>, after: seq<Candidate>, oldProv: Provider, newProv: Provider, i: nat) {
    && i < |list| && list[i].provider == oldProv && (forall k :: 0 <= k < i ==> list[k].provider != oldProv)
    && |after| == |list| && (forall k :: 0 <= k < |list| && k != i ==> after[k] == list[k])
    && after[i].provider == newProv && after[i].pluginID == list[i].pluginID && after[i].isBuiltIn == list[i].isBuiltIn
    && after[i].version == if newProv.version == None || newProv.version == Some("") then list[i].version
                           else newProv.version.value
  }

  predicate SwappedFirst(list: seq<Candidate>, after: seq<Candidate>, oldProv: Provider, newProv: Provider) {
    exists i :: 0 <= i < |list| && SwappedAt(list, after, oldProv, newProv, i)
  }

  /** Replaces the provider of the first candidate that has it. */
  function SwapFirst(list: seq<Candidate>, oldProv: Provider, newProv: Provider): seq<Candidate> {
    if list == [] then []
    else if list[0].provider == oldProv then [Swapped(list[0], newProv)] + list[1..]
    else [list[0]] + SwapFirst(list[1..], oldProv, newProv)
  }

  lemma {:induction false} SwapFirstAt(list: seq<Candidate>, oldProv: Provider, newProv: Provider, i: nat)
    requires i < |list| && list[i].provider == oldProv && forall k :: 0 <= k < i ==> list[k].provider != oldProv
    ensures SwapFirst(list, oldProv, newProv) == list[i := Swapped(list[i], newProv)]
    decreases i
  {
    if i > 0 {
      SwapFirstAt(list[1..], oldProv, newProv, i - 1);
    }
  }

  lemma {:induction false} UpsertAt(list: seq<Candidate>, c: Candidate, i: nat)
    requires i <= |list| && forall k :: 0 <= k < i ==> !SameSlot(list[k], c)
    requires i < |list| ==> SameSlot(list[i], c)
    ensures Upsert(list, c) == if i < |list| then list[i := c] else list + [c]
    decreases i
  {
    if i > 0 {
      UpsertAt(list[1..], c, i - 1);
    }
  }

  /** What Unregister(id) removes from the list of the id's base. */
  predicate Unregistered(id: string, c: Candidate) {
    if '@' in id then
      BeforeIsPrefix(id, '@');
      var target := id[|Before(id, '@')| + 1..];
      (c.isBuiltIn && target == "builtin") || (!c.isBuiltIn && c.pluginID == target)
    else c.provider.id == id
  }

  function WithList(cands: Candidates, base: string, list: seq<Candidate>): Candidates {
    if list == [] then cands - {base} else cands[base := list]
  }

  function OfPlugin(pluginID: string): Candidate -> bool {
    (c: Candidate) => !c.isBuiltIn && c.pluginID == pluginID
  }

  function WithoutPlugin(cands: Candidates, pluginID: string): Candidates {
    map b | b in cands && Excluding(cands[b], OfPlugin(pluginID)) != [] :: Excluding(cands[b], OfPlugin(pluginID))
  }

  /** Every handle leads to a provider that some candidate of its base id still has. */
  ghost predicate AllRouted(cands: Candidates, provs: map<string, Provider>) {
    forall h :: h in provs ==> exists c :: c in ListFor(cands, Before(h, '@')) && c.provider == provs[h]
  }

  lemma RoutesHaveCandidates(cands: Candidates, prefs: map<string, string>, provs: map<string, Provider>)
    requires forall h :: Lookup(provs, h) == Target(cands, prefs, h)
    ensures AllRouted(cands, provs)
  {
    forall h | h in provs ensures exists c :: c in ListFor(cands, Before(h, '@')) && c.provider == provs[h] {
      assert Lookup(provs, h) == Some(provs[h]);
      TargetIsCandidate(cands, prefs, h);
    }
  }

  lemma {:induction false} ExcludingInOrder(list: seq<Candidate>, out: Candidate -> bool)
    ensures forall c :: c in Excluding(list, out) <==> c in list && !out(c)
    ensures InOrder(list, Excluding(list, out))
    decreases |list|
  {
    if list != [] {
      var front, last := list[..|list| - 1], list[|list| - 1];
      assert list == front + [last];
      ExcludingInOrder(front, out);
      InOrderSnoc(front, Excluding(front, out), last);
      hide InOrder;
    }
  }

  /** The handles that Unregister is given name candidates as the routes do. */
  lemma UnregisteredByName(id: string)
    ensures forall c: Candidate ::
              Unregistered(id, c)
              <==> if '@' in id then id == Before(id, '@') + "@" + (if c.isBuiltIn then "builtin" else c.pluginID)
                   else c.provider.id == id
  {
    if '@' in id {
      BeforeIsPrefix(id, '@');
      var base := Before(id, '@');
      var target := id[|base| + 1..];
      assert id == base + "@" + target;
      forall c: Candidate
        ensures id == base + "@" + (if c.isBuiltIn then "builtin" else c.pluginID)
                <==> target == if c.isBuiltIn then "builtin" else c.pluginID
      {
        HandleNames(base, target, if c.isBuiltIn then "builtin" else c.pluginID);
      }
    }
  }

  lemma WithoutPluginByFields(cands: Candidates, pluginID: string)
    ensures forall b, c: Candidate :: c in ListFor(WithoutPlugin(cands, pluginID), b) <==>
              c in ListFor(cands, b) && (c.isBuiltIn || c.pluginID != pluginID)
    ensures forall b :: InOrder(ListFor(cands, b), ListFor(WithoutPlugin(cands, pluginID), b))
  {
    forall b
      ensures forall c :: c in ListFor(WithoutPlugin(cands, pluginID), b) <==>
                c in ListFor(cands, b) && (c.isBuiltIn || c.pluginID != pluginID)
      ensures InOrder(ListFor(cands, b), ListFor(WithoutPlugin(cands, pluginID), b))
    {
      ExcludingInOrder(ListFor(cands, b), OfPlugin(pluginID));
      assert Excluding([], OfPlugin(pluginID)) == [];
    }
  }

  class Registry {
    var provs: map<string, Provider>
    var metadata: map<string, Provider>
    var content: map<string, Provider>
    var tracking: map<string, Provider>
    var candidates: Candidates
    var userPrefs: map<string, string>

    constructor ()
      ensures Valid() && candidates == map[] && userPrefs == map[]
    {
      provs, metadata, content, tracking := map[], map[], map[], map[];
      candidates, userPrefs := map[], map[];
    }

    /** The capability maps hold exactly the routed providers with that capability. */
    ghost predicate FourMaps()
      reads this
    {
      metadata == MetadataOf(provs) && content == ContentOf(provs) && tracking == TrackingOf(provs)
    }

    ghost predicate Bases()
      reads this
    {
      forall b :: b in candidates ==> '@' !in b && candidates[b] != []
    }

    /** All four routing maps are what candidates and preferences determine. */
    ghost predicate Valid()
      reads this
    {
      FourMaps() && Bases() && forall h :: Lookup(provs, h) == Target(candidates, userPrefs, h)
    }

    method ClearRouting(baseID: string)
      requires FourMaps()
      modifies this`provs, this`metadata, this`content, this`tracking
      ensures FourMaps()
      ensures provs == map h | h in old(provs) && !Owns(baseID, h) :: old(provs)[h]
    {
      hide MetadataOf, ContentOf, TrackingOf, HasPrefix;
      MapsWithout(provs, baseID);
      provs, metadata, content, tracking := provs - {baseID}, metadata - {baseID}, content - {baseID}, tracking - {baseID};
      var prefix := baseID + "@";
      var keys := provs.Keys;
      while keys != {}
        invariant FourMaps()
        invariant keys <= provs.Keys
        invariant provs == map h | h in old(provs) && h != baseID && (HasPrefix(h, prefix) ==> h in keys) :: old(provs)[h]
      {
        var k :| k in keys;
        keys := keys - {k};
        if HasPrefix(k, prefix) {
          MapsWithout(provs, k);
          provs, metadata, content, tracking := provs - {k}, metadata - {k}, content - {k}, tracking - {k};
        }
      }
    }

    method IndexProvider(handle: string, p: Provider)
      requires FourMaps()
      modifies this`provs, this`metadata, this`content, this`tracking
      ensures FourMaps()
      ensures provs == old(provs)[handle := p]
      ensures metadata == if p.metadata then old(metadata)[handle := p] else old(metadata) - {handle}
      ensures content == if p.content then old(content)[handle := p] else old(content) - {handle}
      ensures tracking == if p.tracking then old(tracking)[handle := p] else old(tracking) - {handle}
    {
      hide MetadataOf, ContentOf, TrackingOf;
      MetadataWith(provs, handle, p);
      ContentWith(provs, handle, p);
      TrackingWith(provs, handle, p);
      provs := provs[handle := p];
      metadata := if p.metadata then metadata[handle := p] else metadata - {handle};
      content := if p.content then content[handle := p] else content - {handle};
      tracking := if p.tracking then tracking[handle := p] else tracking - {handle};
    }

    /** The version loop of recomputeWinner. */
    static method PickNewest(list: seq<Candidate>) returns (winner: Candidate)
      requires list != []
      ensures winner == Newest(list)
    {
      hide CompareVersionStrings;
      winner := list[0];
      for k := 1 to |list|
        invariant winner == Newest(list[..k])
      {
        assert list[..k + 1][..k] == list[..k];
        if CompareVersionStrings(list[k].version, winner.version) > 0 {
          winner := list[k];
        }
      }
      assert list[..|list|] == list;
    }

    /** The searches of recomputeWinner and its choice between them. */
    method ChooseWinner(list: seq<Candidate>, pref: string) returns (winner: Candidate)
      requires list != []
      ensures winner == Winner(list, pref)
    {
      hide Newest, CompareVersionStrings;
      var builtinCand: Option<Candidate> := None;
      var i := 0;
      while i < |list|
        invariant 0 <= i <= |list|
        invariant builtinCand == None && FirstBuiltIn(list) == FirstBuiltIn(list[i..])
      {
        if list[i].isBuiltIn {
          builtinCand := Some(list[i]);
          break;
        }
        i := i + 1;
      }
      var preferredCand: Option<Candidate> := None;
      if pref != "" {
        i := 0;
        while i < |list|
          invariant 0 <= i <= |list|
          invariant preferredCand == None && FirstPreferred(list, pref) == FirstPreferred(list[i..], pref)
        {
          if (pref == "builtin" && list[i].isBuiltIn) || (!list[i].isBuiltIn && list[i].pluginID == pref) {
            preferredCand := Some(list[i]);
            break;
          }
          i := i + 1;
        }
      }
      if builtinCand.Some? && (pref == "" || pref == "builtin") {
        winner := builtinCand.value;
      } else if preferredCand.Some? {
        winner := preferredCand.value;
      } else if builtinCand.Some? {
        winner := builtinCand.value;
      } else {
        winner := PickNewest(list);
      }
    }

    /** Rebuilds the routes of one base id and touches no other handle. */
    method RecomputeWinner(baseID: string)
      requires FourMaps()
      modifies this`provs, this`metadata, this`content, this`tracking
      ensures FourMaps()
      ensures forall h :: Lookup(provs, h) ==
                if Owns(baseID, h) then RouteOf(ListFor(candidates, baseID), Pref(userPrefs, baseID), baseID, h)
                else Lookup(old(provs), h)
    {
      hide MetadataOf, ContentOf, TrackingOf, Winner;
      var list := ListFor(candidates, baseID);
      ClearRouting(baseID);
      ghost var cleared := provs;
      if list == [] {
        return;
      }
      var winner := ChooseWinner(list, Pref(userPrefs, baseID));
      IndexProvider(baseID, winner.provider);
      for i := 0 to |list|
        invariant FourMaps()
        invariant forall h :: Lookup(provs, h) ==
                    if h == baseID then Some(winner.provider)
                    else if Owns(baseID, h) then LastUnder(list[..i], baseID, h)
                    else Lookup(cleared, h)
      {
        var handle := HandleOf(baseID, list[i]);
        forall h ensures LastUnder(list[..i + 1], baseID, h)
                         == if handle == Some(h) then Some(list[i].provider) else LastUnder(list[..i], baseID, h) {
          assert list[..i + 1][..i] == list[..i];
        }
        ghost var before := provs;
        if handle.Some? {
          HandleIsOwned(baseID, list[i]);
          IndexProvider(handle.value, list[i].provider);
        }
        forall h
          ensures Lookup(provs, h) == if handle == Some(h) then Some(list[i].provider) else Lookup(before, h)
        {
        }
      }
      assert list[..|list|] == list;
    }

    method SetUserPreference(providerID: string, preferredSource: string)
      requires Valid()
      modifies this
      ensures candidates == old(candidates) && userPrefs == old(userPrefs)[providerID := preferredSource]
      ensures Valid() <==> '@' !in providerID || forall h :: h in old(provs) ==> !Owns(providerID, h)
      ensures '@' in providerID ==>
                forall h :: Lookup(provs, h) == if Owns(providerID, h) then None else Lookup(old(provs), h)
    {
      userPrefs := userPrefs[providerID := preferredSource];
      ghost var before := provs;
      RecomputeWinner(providerID);
      forall h
        ensures Target(candidates, userPrefs, h) == Target(candidates, old(userPrefs), h) || Before(h, '@') == providerID
        ensures '@' !in providerID ==> (Owns(providerID, h) <==> Before(h, '@') == providerID)
        ensures '@' !in Before(h, '@')
      {
        BeforeIsPrefix(h, '@');
        if '@' !in providerID {
          OwnsIsBase(providerID, h);
        }
      }
      if '@' in providerID {
        if h :| h in before && Owns(providerID, h) {
          assert Lookup(provs, h) == None && Target(candidates, userPrefs, h) == Lookup(before, h);
        }
      }
    }

    /** Puts a candidate list in place and rebuilds its base id's routes. */
    method StoreList(baseID: string, list: seq<Candidate>)
      requires Valid() && ('@' in baseID ==> list != [])
      modifies this
      ensures userPrefs == old(userPrefs) && candidates == WithList(old(candidates), baseID, list)
      ensures FourMaps()
      ensures forall h :: Lookup(provs, h) ==
                if Owns(baseID, h) then RouteOf(list, Pref(userPrefs, baseID), baseID, h) else Lookup(old(provs), h)
      ensures Valid() <==> '@' !in baseID
    {
      if list == [] {
        candidates := candidates - {baseID};
        ClearRouting(baseID);
      } else {
        candidates := candidates[baseID := list];
        RecomputeWinner(baseID);
      }
      if '@' !in baseID {
        forall h ensures Lookup(provs, h) == Target(candidates, userPrefs, h) {
          OwnsIsBase(baseID, h);
          assert Lookup(old(provs), h) == Target(old(candidates), userPrefs, h);
        }
      } else {
        assert baseID in candidates;
      }
    }

    /**
     * Keeps all maps exact exactly for a base id without '@'. One with it takes over the handles it owns, among
     * them the namespaced handle of another base id that it is equal to; each of them whose route changes is wrong.
     */
    method Register(p: Provider)
      requires Valid()
      modifies this
      ensures userPrefs == old(userPrefs) && candidates == Registered(old(candidates), p)
      ensures p.id in candidates
              && exists c, i :: PutAt(ListFor(old(candidates), p.id), candidates[p.id], c, i) && c.provider == p
                   && c.pluginID == (if p.pluginID.Some? then p.pluginID.value else "")
                   && c.version == (if p.version.Some? && p.version.value != "" then p.version.value else "0.0.0")
                   && c.isBuiltIn == if p.builtIn.Some? then p.builtIn.value else c.pluginID == ""
      ensures candidates.Keys == old(candidates).Keys + {p.id}
      ensures forall b :: b in old(candidates) && b != p.id ==> candidates[b] == old(candidates)[b]
      ensures FourMaps()
      ensures forall h :: Lookup(provs, h) ==
                if Owns(p.id, h) then RouteOf(ListFor(candidates, p.id), Pref(userPrefs, p.id), p.id, h)
                else Lookup(old(provs), h)
      ensures Valid() <==> '@' !in p.id
      ensures '@' in p.id ==>
                forall h :: Lookup(provs, h) != Target(candidates, userPrefs, h)
                            <==> Owns(p.id, h) && Lookup(provs, h) != Lookup(old(provs), h)
    {
      hide RouteOf, Lookup, HasPrefix, MetadataOf, ContentOf, TrackingOf;
      var list := UpsertList(ListFor(candidates, p.id), CandidateOf(p));
      StoreList(p.id, list);
      ghost var i :| PutAt(ListFor(old(candidates), p.id), list, CandidateOf(p), i);
      assert candidates[p.id] == list && candidates.Keys == old(candidates).Keys + {p.id};
      assert PutAt(ListFor(old(candidates), p.id), candidates[p.id], CandidateOf(p), i);
      if '@' in p.id {
        forall h ensures Target(candidates, userPrefs, h) == Lookup(old(provs), h) {
          BeforeIsPrefix(h, '@');
          assert Lookup(old(provs), h) == Target(old(candidates), userPrefs, h);
        }
      }
    }

    /** The in-place replacement, or the append, of Register. */
    static method UpsertList(start: seq<Candidate>, cand: Candidate) returns (list: seq<Candidate>)
      ensures list == Upsert(start, cand) && list != []
      ensures exists i :: PutAt(start, list, cand, i)
    {
      list := start;
      var updated := false;
      var i := 0;
      while i < |list|
        invariant 0 <= i <= |list| && list == start && !updated
        invariant forall k :: 0 <= k < i ==> !SameSlot(start[k], cand)
      {
        if list[i].pluginID == cand.pluginID && list[i].isBuiltIn == cand.isBuiltIn {
          list := list[i := cand];
          updated := true;
          break;
        }
        i := i + 1;
      }
      UpsertAt(start, cand, i);
      if !updated {
        list := list + [cand];
      }
      assert PutAt(start, list, cand, i);
    }

    method SwapProvider(baseID: string, oldProv: Provider, newProv: Provider) returns (found: bool)
      requires Valid()
      modifies this
      ensures Valid() && userPrefs == old(userPrefs)
      ensures found <==> exists c :: c in ListFor(old(candidates), baseID) && c.provider == oldProv
      ensures candidates == if found then old(candidates)[baseID := SwapFirst(ListFor(old(candidates), baseID), oldProv, newProv)]
                            else old(candidates)
      ensures found ==>
                && baseID in old(candidates) && candidates.Keys == old(candidates).Keys
                && SwappedFirst(old(candidates)[baseID], candidates[baseID], oldProv, newProv)
                && forall b :: b in old(candidates) && b != baseID ==> candidates[b] == old(candidates)[b]
    {
      hide Target, Lookup, MetadataOf, ContentOf, TrackingOf;
      var list: seq<Candidate>;
      list, found := SwapInList(ListFor(candidates, baseID), oldProv, newProv);
      if !found {
        return;
      }
      StoreList(baseID, list);
    }

    /** The in-place replacement of SwapProvider. */
    static method SwapInList(start: seq<Candidate>, oldProv: Provider, newProv: Provider)
      returns (list: seq<Candidate>, found: bool)
      ensures found <==> exists c :: c in start && c.provider == oldProv
      ensures found ==> list == SwapFirst(start, oldProv, newProv) && list != []
      ensures found ==> SwappedFirst(start, list, oldProv, newProv)
    {
      list, found := start, false;
      var i := 0;
      while i < |list|
        invariant 0 <= i <= |list| && list == start && !found
        invariant forall k :: 0 <= k < i ==> start[k].provider != oldProv
      {
        if list[i].provider == oldProv {
          SwapFirstAt(start, oldProv, newProv, i);
          assert SwappedAt(start, list[i := Swapped(list[i], newProv)], oldProv, newProv, i);
          list := list[i := Swapped(list[i], newProv)];
          found := true;
          break;
        }
        i := i + 1;
      }
    }

    method Unregister(id: string)
      requires Valid()
      modifies this
      ensures Valid() && userPrefs == old(userPrefs)
      ensures var base := Before(id, '@');
              candidates == WithList(old(candidates), base,
                                     Excluding(ListFor(old(candidates), base), (c: Candidate) => Unregistered(id, c)))
      ensures var base := Before(id, '@');
              && (forall c: Candidate :: c in ListFor(candidates, base) <==>
                    c in ListFor(old(candidates), base)
                    && if '@' in id then id != base + "@" + (if c.isBuiltIn then "builtin" else c.pluginID) else c.provider.id != id)
              && InOrder(ListFor(old(candidates), base), ListFor(candidates, base))
              && forall b :: b != base ==> ListFor(candidates, b) == ListFor(old(candidates), b)
      ensures AllRouted(candidates, provs)
    {
      hide Target, RouteOf, Lookup, MetadataOf, ContentOf, TrackingOf, AllRouted, InOrder, Unregistered;
      BeforeIsPrefix(id, '@');
      var baseID := Before(id, '@');
      var list := ListFor(candidates, baseID);
      var newList: seq<Candidate> := [];
      ghost var out := (c: Candidate) => Unregistered(id, c);
      for i := 0 to |list|
        invariant newList == Excluding(list[..i], out)
      {
        assert list[..i + 1][..i] == list[..i];
        if !Unregistered(id, list[i]) {
          newList := newList + [list[i]];
        }
      }
      assert list[..|list|] == list;
      StoreList(baseID, newList);
      ExcludingInOrder(list, out);
      UnregisteredByName(id);
      RoutesHaveCandidates(candidates, userPrefs, provs);
    }

    /** The filter loop of UnregisterPlugin. */
    static method FilterPlugin(list: seq<Candidate>, pluginID: string) returns (newList: seq<Candidate>)
      ensures newList == Excluding(list, OfPlugin(pluginID))
    {
      newList := [];
      for i := 0 to |list|
        invariant newList == Excluding(list[..i], OfPlugin(pluginID))
      {
        assert list[..i + 1][..i] == list[..i];
        if !(!list[i].isBuiltIn && list[i].pluginID == pluginID) {
          newList := newList + [list[i]];
        }
      }
      assert list[..|list|] == list;
    }

    method UnregisterPlugin(pluginID: string)
      requires Valid()
      modifies this
      ensures Valid() && userPrefs == old(userPrefs)
      ensures candidates == WithoutPlugin(old(candidates), pluginID)
      ensures forall b, c: Candidate :: c in ListFor(candidates, b) <==>
                c in ListFor(old(candidates), b) && (c.isBuiltIn || c.pluginID != pluginID)
      ensures forall b :: InOrder(ListFor(old(candidates), b), ListFor(candidates, b))
      ensures AllRouted(candidates, provs)
    {
      hide Target, Lookup, MetadataOf, ContentOf, TrackingOf, Excluding, OfPlugin;
      var bases := candidates.Keys;
      ghost var start := candidates;
      while bases != {}
        invariant Valid() && userPrefs == old(userPrefs)
        invariant bases <= start.Keys && candidates.Keys <= start.Keys
        invariant forall b :: b in start ==>
                    ListFor(candidates, b) == if b in bases then start[b] else Excluding(start[b], OfPlugin(pluginID))
      {
        var baseID :| baseID in bases;
        bases := bases - {baseID};
        assert baseID in start && ListFor(candidates, baseID) == start[baseID] && start[baseID] != [];
        var newList := FilterPlugin(candidates[baseID], pluginID);
        StoreList(baseID, newList);
      }
      forall b ensures b in candidates <==> b in WithoutPlugin(start, pluginID)
        ensures b in candidates ==> candidates[b] == WithoutPlugin(start, pluginID)[b]
      {
        assert b in start ==> ListFor(candidates, b) == Excluding(start[b], OfPlugin(pluginID));
      }
      WithoutPluginByFields(start, pluginID);
      RoutesHaveCandidates(candidates, userPrefs, provs);
    }
  }

  /** Setting a preference under the namespaced id of a registered plugin provider takes its route away. */
  method PreferenceBreaksRouting(p: Provider, source: string) returns (r: Registry)
    requires '@' !in p.id && CandidateOf(p).pluginID == "x" && !CandidateOf(p).isBuiltIn
    ensures !r.Valid() && p.id + "@x" !in r.provs
    ensures Target(r.candidates, r.userPrefs, p.id + "@x") == Some(p)
  {
    r := new Registry();
    r.Register(p);
    var h := p.id + "@x";
    assert h == p.id + ['@'] + "x";
    BeforeConcat(p.id, '@', "x");
    assert r.candidates[p.id] == [CandidateOf(p)];
    assert Target(r.candidates, r.userPrefs, h) == Some(p);
    assert Lookup(r.provs, h) == Some(p);
    assert Owns(h, h) && '@' in h;
    r.SetUserPreference(h, source);
  }

  /** A provider whose id is the namespaced handle of another one takes that handle over. */
  method NamespacedIdTakesHandle(p: Provider, q: Provider) returns (r: Registry)
    requires '@' !in p.id && CandidateOf(p).pluginID == "x" && !CandidateOf(p).isBuiltIn
    requires q.id == p.id + "@x"
    ensures Target(r.candidates, r.userPrefs, p.id + "@x") == Some(p)
    ensures Lookup(r.provs, p.id + "@x") == Some(q)
  {
    hide PutAt, Upsert, Target, RouteOf, CandidateOf;
    r := new Registry();
    OneCandidate(r.candidates, p);
    r.Register(p);
    var h := p.id + "@x";
    assert h != p.id && '@' in h by {
      assert h[|p.id|] == '@';
    }
    OneCandidate(r.candidates, q);
    r.Register(q);
    OnlyRoute(r.candidates, r.userPrefs, p);
    SingleWinner(q, Pref(r.userPrefs, h), h);
    assert Owns(h, h);
  }

  lemma OneCandidate(cands: Candidates, p: Provider)
    requires p.id !in cands
    ensures Registered(cands, p) == cands[p.id := [CandidateOf(p)]]
  {
  }

  lemma OnlyRoute(cands: Candidates, prefs: map<string, string>, p: Provider)
    requires '@' !in p.id && CandidateOf(p).pluginID == "x" && !CandidateOf(p).isBuiltIn
    requires p.id in cands && cands[p.id] == [CandidateOf(p)]
    ensures Target(cands, prefs, p.id + "@x") == Some(p)
  {
    assert p.id + "@x" == p.id + "@" + "x";
    assert cands[p.id][0].provider == p && Named(cands[p.id][0], "x");
    NamespacedRoute(cands, prefs, p.id, "x", p);
  }

  lemma SingleWinner(q: Provider, pref: string, h: string)
    ensures RouteOf([CandidateOf(q)], pref, h, h) == Some(q)
  {
    var list := [CandidateOf(q)];
    FirstBuiltInFinds(list);
    FirstPreferredFinds(list, pref);
    NewestIsEarliestMaximum(list);
    assert Winner(list, pref) == list[0];
  }
}
