/** What the routing maps of the provider registry must contain, computed from candidates and preferences alone. */
module RegistrySpec {
  import opened Options
  import opened GoStrings
  import opened Versions

  /**
   * A provider object. `instance` is its identity; the optional members are the values of the optional
   * interfaces PluginID, Version and IsBuiltIn; the flags say which capabilities it implements.
   */
  datatype Provider = Provider(
    instance: nat,
    id: string,
    pluginID: Option<string>,
    version: Option<string>,
    builtIn: Option<bool>,
    metadata: bool,
    content: bool,
    tracking: bool)

  datatype Candidate = Candidate(provider: Provider, pluginID: string, version: string, isBuiltIn: bool)

  type Candidates = map<string, seq<Candidate>>

  /** The candidate Register builds for a provider. */
  function CandidateOf(p: Provider): Candidate {
    var pluginID := if p.pluginID.Some? then p.pluginID.value else "";
    Candidate(
      p,
      pluginID,
      if p.version.Some? && p.version.value != "" then p.version.value else "0.0.0",
      if p.builtIn.Some? then p.builtIn.value else pluginID == "")
  }

  predicate SameSlot(c: Candidate, d: Candidate) {
    c.pluginID == d.pluginID && c.isBuiltIn == d.isBuiltIn
  }

  /** Replaces the first candidate of the same slot, or appends. */
  function Upsert(list: seq<Candidate>, c: Candidate): seq<Candidate> {
    if list == [] then [c]
    else if SameSlot(list[0], c) then [c] + list[1..]
    else [list[0]] + Upsert(list[1..], c)
  }

  function ListFor(cands: Candidates, base: string): seq<Candidate> {
    if base in cands then cands[base] else []
  }

  function Registered(cands: Candidates, p: Provider): Candidates {
    cands[p.id := Upsert(ListFor(cands, p.id), CandidateOf(p))]
  }

  /** `after` is the list with c in its slot i: the first with its plugin id and kind, or a new one at the end. */
  predicate PutAt(list: seq<Candidate>, after: seq<Candidate>, c: Candidate, i: nat) {
    && i <= |list|
    && (forall k :: 0 <= k < i ==> list[k].pluginID != c.pluginID || list[k].isBuiltIn != c.isBuiltIn)
    && (i < |list| ==> list[i].pluginID == c.pluginID && list[i].isBuiltIn == c.isBuiltIn)
    && after == if i < |list| then list[i := c] else list + [c]
  }

  // --- the winner -----------------------------------------------------------------

  function FirstBuiltIn(list: seq<Candidate>): Option<Candidate> {
    if list == [] then None else if list[0].isBuiltIn then Some(list[0]) else FirstBuiltIn(list[1..])
  }

  predicate IsPreferred(c: Candidate, pref: string) {
    (pref == "builtin" && c.isBuiltIn) || (!c.isBuiltIn && c.pluginID == pref)
  }

  function FirstPreferred(list: seq<Candidate>, pref: string): Option<Candidate> {
    if list == [] then None else if IsPreferred(list[0], pref) then Some(list[0]) else FirstPreferred(list[1..], pref)
  }

  /** The left fold of the version loop. */
  function Newest(list: seq<Candidate>): Candidate
    requires list != []
    decreases |list|
  {
    if |list| == 1 then list[0]
    else
      var best := Newest(list[..|list| - 1]);
      if CompareVersionStrings(list[|list| - 1].version, best.version) > 0 then list[|list| - 1] else best
  }

  function Winner(list: seq<Candidate>, pref: string): Candidate
    requires list != []
  {
    var builtin := FirstBuiltIn(list);
    var preferred := if pref == "" then None else FirstPreferred(list, pref);
    if builtin.Some? && (pref == "" || pref == "builtin") then builtin.value
    else if preferred.Some? then preferred.value
    else if builtin.Some? then builtin.value
    else Newest(list)
  }

  /** c is the earliest of the newest: nothing in the list is newer, and everything before it is older. */
  ghost predicate EarliestMaximum(list: seq<Candidate>, c: Candidate) {
    exists i :: 0 <= i < |list| && list[i] == c
      && (forall k :: 0 <= k < |list| ==> CompareVersionStrings(list[k].version, c.version) <= 0)
      && (forall k :: 0 <= k < i ==> CompareVersionStrings(list[k].version, c.version) < 0)
  }

  lemma {:induction false} NewestAt(list: seq<Candidate>) returns (i: nat)
    requires list != []
    ensures i < |list| && list[i] == Newest(list)
    ensures forall k :: 0 <= k < |list| ==> CompareVersionStrings(list[k].version, Newest(list).version) <= 0
    ensures forall k :: 0 <= k < i ==> CompareVersionStrings(list[k].version, Newest(list).version) < 0
    decreases |list|
  {
    hide CompareVersionStrings;
    var last := list[|list| - 1];
    ComparisonIsTotalPreorder(last.version, last.version, last.version);
    i := 0;
    if |list| > 1 {
      var front := list[..|list| - 1];
      i := NewestAt(front);
      assert forall k :: 0 <= k < |front| ==> list[k] == front[k];
      ComparisonIsTotalPreorder(last.version, Newest(front).version, last.version);
      if CompareVersionStrings(last.version, Newest(front).version) > 0 {
        i := |front|;
        forall k | 0 <= k < |front| ensures CompareVersionStrings(list[k].version, last.version) < 0 {
          ComparisonIsTotalPreorder(front[k].version, Newest(front).version, last.version);
        }
      }
    }
  }

  lemma NewestIsEarliestMaximum(list: seq<Candidate>)
    requires list != []
    ensures EarliestMaximum(list, Newest(list))
  {
    var i := NewestAt(list);
  }

  /** c is the first of the list with the property p. */
  ghost predicate IsFirst(list: seq<Candidate>, c: Candidate, p: Candidate -> bool) {
    exists i :: 0 <= i < |list| && list[i] == c && p(c) && forall k :: 0 <= k < i ==> !p(list[k])
  }

  lemma {:induction false} FirstBuiltInFinds(list: seq<Candidate>)
    ensures FirstBuiltIn(list) == None <==> forall k :: 0 <= k < |list| ==> !list[k].isBuiltIn
    ensures FirstBuiltIn(list).Some? ==> IsFirst(list, FirstBuiltIn(list).value, (c: Candidate) => c.isBuiltIn)
    decreases |list|
  {
    if list != [] && !list[0].isBuiltIn {
      FirstBuiltInFinds(list[1..]);
      assert forall k :: 1 <= k < |list| ==> list[k] == list[1..][k - 1];
      if FirstBuiltIn(list).Some? {
        var c := FirstBuiltIn(list).value;
        var i :| 0 <= i < |list[1..]| && list[1..][i] == c && c.isBuiltIn && forall k :: 0 <= k < i ==> !list[1..][k].isBuiltIn;
        assert list[i + 1] == c;
      }
    } else if list != [] {
      assert list[0] == FirstBuiltIn(list).value;
    }
  }

  lemma {:induction false} FirstPreferredFinds(list: seq<Candidate>, pref: string)
    ensures FirstPreferred(list, pref) == None <==> forall k :: 0 <= k < |list| ==> !IsPreferred(list[k], pref)
    ensures FirstPreferred(list, pref).Some? ==>
              IsFirst(list, FirstPreferred(list, pref).value, (c: Candidate) => IsPreferred(c, pref))
    decreases |list|
  {
    if list != [] && !IsPreferred(list[0], pref) {
      FirstPreferredFinds(list[1..], pref);
      assert forall k :: 1 <= k < |list| ==> list[k] == list[1..][k - 1];
      if FirstPreferred(list, pref).Some? {
        var c := FirstPreferred(list, pref).value;
        var i :| 0 <= i < |list[1..]| && list[1..][i] == c && IsPreferred(c, pref)
          && forall k :: 0 <= k < i ==> !IsPreferred(list[1..][k], pref);
        assert list[i + 1] == c;
      }
    } else if list != [] {
      assert list[0] == FirstPreferred(list, pref).value;
    }
  }

  /**
   * The collision rules: without a preference for a registered plugin the first built-in wins, a preference
   * beats it, and among plugins alone the earliest newest version wins.
   */
  lemma WinnerFollowsTheRules(list: seq<Candidate>, pref: string)
    requires list != []
    ensures var hit := exists k :: 0 <= k < |list| && !list[k].isBuiltIn && list[k].pluginID == pref;
            var anyBuiltIn := exists k :: 0 <= k < |list| && list[k].isBuiltIn;
            if pref != "" && hit && (pref != "builtin" || !anyBuiltIn)
            then IsFirst(list, Winner(list, pref), (c: Candidate) => !c.isBuiltIn && c.pluginID == pref)
            else if anyBuiltIn then IsFirst(list, Winner(list, pref), (c: Candidate) => c.isBuiltIn)
            else EarliestMaximum(list, Winner(list, pref))
  {
    hide EarliestMaximum;
    FirstBuiltInFinds(list);
    FirstPreferredFinds(list, pref);
    NewestIsEarliestMaximum(list);
  }

  // --- routing from scratch ---------------------------------------------------------

  function HandleOf(base: string, c: Candidate): Option<string> {
    if c.isBuiltIn then Some(base + "@builtin")
    else if c.pluginID != "" then Some(base + "@" + c.pluginID)
    else None
  }

  /** The last candidate under a namespaced handle, as later ones overwrite earlier ones. */
  function LastUnder(list: seq<Candidate>, base: string, h: string): Option<Provider> {
    if list == [] then None
    else if HandleOf(base, list[|list| - 1]) == Some(h) then Some(list[|list| - 1].provider)
    else LastUnder(list[..|list| - 1], base, h)
  }

  function Pref(prefs: map<string, string>, base: string): string {
    if base in prefs then prefs[base] else ""
  }

  /** Where a handle of this base id leads: to the winner, or to the named candidate. */
  function RouteOf(list: seq<Candidate>, pref: string, base: string, h: string): Option<Provider> {
    if list == [] then None
    else if base == h then Some(Winner(list, pref).provider)
    else LastUnder(list, base, h)
  }

  /** The provider a handle must lead to: its base id is what stands before the first '@'. */
  function Target(cands: Candidates, prefs: map<string, string>, h: string): Option<Provider> {
    var base := Before(h, '@');
    RouteOf(ListFor(cands, base), Pref(prefs, base), base, h)
  }

  /** The handles of a base id: itself and everything under "base@". */
  predicate Owns(base: string, h: string) {
    h == base || HasPrefix(h, base + "@")
  }

  lemma OwnsIsBase(base: string, h: string)
    requires '@' !in base
    ensures Owns(base, h) <==> Before(h, '@') == base
  {
    BeforeIsPrefix(h, '@');
    if HasPrefix(h, base + "@") {
      assert h == base + ['@'] + h[|base| + 1..];
      BeforeConcat(base, '@', h[|base| + 1..]);
    }
    if Before(h, '@') == base && h != base {
      assert h[..|base| + 1] == base + "@";
    }
  }

  lemma HandleIsOwned(base: string, c: Candidate)
    requires HandleOf(base, c).Some?
    ensures Owns(base, HandleOf(base, c).value) && HandleOf(base, c).value != base
  {
    var name := if c.isBuiltIn then "builtin" else c.pluginID;
    assert HandleOf(base, c).value == base + "@" + name;
    assert (base + "@" + name)[..|base| + 1] == base + "@";
  }

  lemma {:induction false} LastUnderFinds(list: seq<Candidate>, base: string, h: string)
    ensures LastUnder(list, base, h).Some? <==> exists i :: 0 <= i < |list| && HandleOf(base, list[i]) == Some(h)
    ensures LastUnder(list, base, h).Some? ==>
              exists i :: 0 <= i < |list| && HandleOf(base, list[i]) == Some(h) && list[i].provider == LastUnder(list, base, h).value
    decreases |list|
  {
    if list != [] {
      var front := list[..|list| - 1];
      LastUnderFinds(front, base, h);
      assert forall i :: 0 <= i < |front| ==> front[i] == list[i];
    }
  }

  /** Every route leads to a candidate of the handle's base id. */
  lemma TargetIsCandidate(cands: Candidates, prefs: map<string, string>, h: string)
    requires Target(cands, prefs, h).Some?
    ensures var list := ListFor(cands, Before(h, '@'));
            exists c :: c in list && c.provider == Target(cands, prefs, h).value
  {
    var base := Before(h, '@');
    var list := ListFor(cands, base);
    if base == h {
      var pref := Pref(prefs, base);
      FirstBuiltInFinds(list);
      FirstPreferredFinds(list, pref);
      NewestIsEarliestMaximum(list);
      assert Winner(list, pref) in list;
    } else {
      LastUnderFinds(list, base, h);
      var i :| 0 <= i < |list| && HandleOf(base, list[i]) == Some(h) && list[i].provider == LastUnder(list, base, h).value;
      assert list[i] in list;
    }
  }

  lemma {:induction false} LastUnderIsLast(list: seq<Candidate>, base: string, h: string, p: Provider)
    ensures LastUnder(list, base, h) == Some(p)
            <==> exists i :: 0 <= i < |list| && list[i].provider == p && HandleOf(base, list[i]) == Some(h)
                             && forall k :: i < k < |list| ==> HandleOf(base, list[k]) != Some(h)
    decreases |list|
  {
    hide HandleOf;
    if list != [] {
      var front, last := list[..|list| - 1], list[|list| - 1];
      LastUnderIsLast(front, base, h, p);
      assert forall k :: 0 <= k < |front| ==> list[k] == front[k];
    }
  }

  lemma HandleNames(base: string, s: string, t: string)
    ensures base + "@" + s == base + "@" + t <==> s == t
  {
    assert (base + "@" + s)[|base| + 1..] == s && (base + "@" + t)[|base| + 1..] == t;
  }

  /** The candidate answers to this name behind the '@'. */
  predicate Named(c: Candidate, name: string) {
    if c.isBuiltIn then name == "builtin" else c.pluginID != "" && c.pluginID == name
  }

  /** A namespaced handle leads to the last candidate of that name. */
  lemma NamespacedRoute(cands: Candidates, prefs: map<string, string>, base: string, name: string, p: Provider)
    requires '@' !in base
    ensures Target(cands, prefs, base + "@" + name) == Some(p)
            <==> && base in cands
                 && exists i :: 0 <= i < |cands[base]| && cands[base][i].provider == p && Named(cands[base][i], name)
                                && forall k :: i < k < |cands[base]| ==> !Named(cands[base][k], name)
  {
    var h := base + "@" + name;
    assert h == base + ['@'] + name;
    BeforeConcat(base, '@', name);
    var list := ListFor(cands, base);
    LastUnderIsLast(list, base, h, p);
    forall c: Candidate ensures HandleOf(base, c) == Some(h) <==> Named(c, name) {
      HandleNames(base, if c.isBuiltIn then "builtin" else c.pluginID, name);
      assert base + "@builtin" == base + "@" + "builtin";
    }
  }

  /** The primary handle leads to the winner under the preference set for the base id. */
  lemma PrimaryRoute(cands: Candidates, prefs: map<string, string>, base: string)
    requires '@' !in base
    ensures Target(cands, prefs, base)
            == if base in cands && cands[base] != []
               then Some(Winner(cands[base], if base in prefs then prefs[base] else "").provider) else None
  {
    BeforeIsPrefix(base, '@');
  }
}
