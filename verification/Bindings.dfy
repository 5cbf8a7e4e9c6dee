/** Provider bindings of a manga: the list of bound providers and the active content source. */
module Bindings {
  import opened GoStrings
  import opened Options
  import opened Sequences

  datatype Ref = Ref(providerID: string, mangaID: string, title: string)

  datatype Source = Source(
    providerID: string, mangaID: string, chapterRef: string, readingMode: string, lastSyncedAt: nat)

  const NO_SOURCE := Source("", "", "", "", 0)

  datatype File = File(providers: seq<Ref>, content: Option<Source>)

  /** What a manga without bindings.json reads as. */
  const EMPTY := File([], None)

  const NUL := '\0'

  function Key(providerID: string, mangaID: string): string {
    providerID + [NUL] + mangaID
  }

  function KeyOf(p: Ref): string {
    Key(p.providerID, p.mangaID)
  }

  predicate IsPair(p: Ref, providerID: string, mangaID: string) {
    p.providerID == providerID && p.mangaID == mangaID
  }

  predicate Bound(ps: seq<Ref>, providerID: string, mangaID: string) {
    exists i :: 0 <= i < |ps| && IsPair(ps[i], providerID, mangaID)
  }

  /** Another pair is bound under the key of this one. */
  predicate Clashes(ps: seq<Ref>, providerID: string, mangaID: string) {
    exists i :: 0 <= i < |ps| && KeyOf(ps[i]) == Key(providerID, mangaID) && !IsPair(ps[i], providerID, mangaID)
  }

  function Keys(ps: seq<Ref>): set<string> {
    set i | 0 <= i < |ps| :: KeyOf(ps[i])
  }

  predicate KeysDistinct(ps: seq<Ref>) {
    forall i, j :: 0 <= i < j < |ps| ==> KeyOf(ps[i]) != KeyOf(ps[j])
  }

  /** Keys name pairs as long as no provider id contains the separator; ("a\0b", "c") and ("a", "b\0c") share one. */
  lemma KeysNamePairs(p: Ref, q: Ref)
    requires NUL !in p.providerID && NUL !in q.providerID
    ensures KeyOf(p) == KeyOf(q) <==> p.providerID == q.providerID && p.mangaID == q.mangaID
  {
    if KeyOf(p) == KeyOf(q) {
      BeforeConcat(p.providerID, NUL, p.mangaID);
      BeforeConcat(q.providerID, NUL, q.mangaID);
      assert KeyOf(p)[|p.providerID| + 1..] == p.mangaID && KeyOf(q)[|q.providerID| + 1..] == q.mangaID;
    }
  }

  // ----- Deduplication -----

  /** The refs whose key does not occur earlier in the list. */
  function Firsts(ps: seq<Ref>): seq<Ref> {
    if ps == [] then []
    else
      var front, last := ps[..|ps| - 1], ps[|ps| - 1];
      if KeyOf(last) in Keys(front) then Firsts(front) else Firsts(front) + [last]
  }

  lemma FirstsSnoc(ps: seq<Ref>, p: Ref)
    ensures Firsts(ps + [p]) == if KeyOf(p) in Keys(ps) then Firsts(ps) else Firsts(ps) + [p]
    ensures Keys(ps + [p]) == Keys(ps) + {KeyOf(p)}
  {
    assert (ps + [p])[..|ps|] == ps;
    assert forall i :: 0 <= i < |ps| ==> (ps + [p])[i] == ps[i];
    assert (ps + [p])[|ps|] == p;
  }

  /** One ref per key, and all keys. */
  lemma {:induction false} FirstsKeepKeys(ps: seq<Ref>)
    ensures KeysDistinct(Firsts(ps)) && Keys(Firsts(ps)) == Keys(ps)
    decreases |ps|
  {
    if ps != [] {
      var front, last := ps[..|ps| - 1], ps[|ps| - 1];
      FirstsKeepKeys(front);
      assert ps == front + [last];
      FirstsSnoc(front, last);
      if KeyOf(last) !in Keys(front) {
        FirstsSnoc(Firsts(front), last);
        DistinctSnoc(Firsts(front), last);
      }
    }
  }

  lemma DistinctSnoc(ps: seq<Ref>, p: Ref)
    requires KeysDistinct(ps)
    ensures KeysDistinct(ps + [p]) <==> KeyOf(p) !in Keys(ps)
  {
    var all := ps + [p];
    assert all[|ps|] == p && forall i :: 0 <= i < |ps| ==> all[i] == ps[i];
    if KeyOf(p) in Keys(ps) {
      var i :| 0 <= i < |ps| && KeyOf(ps[i]) == KeyOf(p);
      assert KeyOf(all[i]) == KeyOf(all[|ps|]);
    } else {
      assert forall i :: 0 <= i < |ps| ==> KeyOf(all[i]) in Keys(ps);
    }
  }

  /** Each ref kept is the first of its key. */
  lemma {:induction false} FirstsAreFirst(ps: seq<Ref>, p: Ref) returns (i: nat)
    requires p in Firsts(ps)
    ensures i < |ps| && ps[i] == p && KeyOf(p) !in Keys(ps[..i])
    decreases |ps|
  {
    var front, last := ps[..|ps| - 1], ps[|ps| - 1];
    if p in Firsts(front) {
      i := FirstsAreFirst(front, p);
      assert front[..i] == ps[..i];
    } else {
      i := |ps| - 1;
    }
  }

  lemma {:induction false} FirstsOfDistinct(ps: seq<Ref>)
    requires KeysDistinct(ps)
    ensures Firsts(ps) == ps
    decreases |ps|
  {
    if ps != [] {
      FirstsOfDistinct(ps[..|ps| - 1]);
      assert KeyOf(ps[|ps| - 1]) !in Keys(ps[..|ps| - 1]);
    }
  }

  /** What comes first stays first. */
  lemma {:induction false} FirstsGrow(a: seq<Ref>, b: seq<Ref>)
    ensures Firsts(a) <= Firsts(a + b)
    decreases |b|
  {
    if b == [] {
      assert a + b == a;
    } else {
      var front := b[..|b| - 1];
      FirstsGrow(a, front);
      assert a + b == a + front + [b[|b| - 1]];
      FirstsSnoc(a + front, b[|b| - 1]);
    }
  }

  method Normalize(providers: seq<Ref>) returns (out: seq<Ref>)
    ensures out == Firsts(providers)
  {
    hide Firsts;
    var seen: set<string> := {};
    out := [];
    FirstsOfNone();
    for i := 0 to |providers|
      invariant seen == Keys(providers[..i]) && out == Firsts(providers[..i])
    {
      var p := providers[i];
      assert providers[..i + 1] == providers[..i] + [p];
      FirstsSnoc(providers[..i], p);
      if KeyOf(p) in seen {
        continue;
      }
      seen := seen + {KeyOf(p)};
      out := out + [p];
    }
    assert providers[..|providers|] == providers;
  }

  lemma FirstsOfNone()
    ensures Firsts([]) == [] && Keys([]) == {}
  {
  }

  // ----- The operations -----

  /** The first ref of the pair gets the new title, unless that is empty. */
  function Retitled(ps: seq<Ref>, ref: Ref): (r: seq<Ref>)
    ensures |r| == |ps| && forall i :: 0 <= i < |ps| ==> KeyOf(r[i]) == KeyOf(ps[i]) && r[i] == ps[i].(title := r[i].title)
  {
    if ps == [] || ref.title == "" then ps
    else if IsPair(ps[0], ref.providerID, ref.mangaID) then [ps[0].(title := ref.title)] + ps[1..]
    else [ps[0]] + Retitled(ps[1..], ref)
  }

  function Without(ps: seq<Ref>, providerID: string, mangaID: string): seq<Ref> {
    if ps == [] then []
    else
      Without(ps[..|ps| - 1], providerID, mangaID)
      + if IsPair(ps[|ps| - 1], providerID, mangaID) then [] else [ps[|ps| - 1]]
  }

  predicate Active(f: File, providerID: string, mangaID: string) {
    f.content.Some? && f.content.value.providerID == providerID && f.content.value.mangaID == mangaID
  }

  predicate SomeCapable(ps: seq<Ref>, caps: string -> seq<string>) {
    exists i :: 0 <= i < |ps| && "content" in caps(ps[i].providerID)
  }

  predicate Removable(f: File, providerID: string, mangaID: string, caps: string -> seq<string>) {
    && Bound(f.providers, providerID, mangaID)
    && (Active(f, providerID, mangaID) ==> SomeCapable(Without(f.providers, providerID, mangaID), caps))
  }

  datatype Op =
    | Add(ref: Ref)
    | Remove(providerID: string, mangaID: string, caps: string -> seq<string>)
    | Switch(to: Ref, readingMode: string)
    | Merge(sources: seq<seq<Ref>>, choice: Option<Ref>)

  function Flatten(lists: seq<seq<Ref>>): seq<Ref> {
    if lists == [] then [] else Flatten(lists[..|lists| - 1]) + lists[|lists| - 1]
  }

  /** The content source a merge asks for: the request's, else the kept manga's own. */
  function Wanted(f: File, choice: Option<Ref>): Option<Source> {
    var mode := if f.content.Some? then f.content.value.readingMode else "";
    if choice.Some? then Some(Source(choice.value.providerID, choice.value.mangaID, "", mode, 0))
    else if f.content.Some? then Some(Source(f.content.value.providerID, f.content.value.mangaID, "", mode, 0))
    else None
  }

  function Union(f: File, sources: seq<seq<Ref>>): seq<Ref> {
    Firsts(f.providers + Flatten(sources))
  }

  predicate Accepted(f: File, op: Op) {
    match op
    case Add(_) => true
    case Remove(providerID, mangaID, caps) => Removable(f, providerID, mangaID, caps)
    case Switch(_, _) => true
    case Merge(sources, choice) =>
      var w := Wanted(f, choice);
      w.Some? && Bound(Union(f, sources), w.value.providerID, w.value.mangaID)
  }

  /** A switch changes the pair and, if one is named, the reading mode; the rest of the source stays. */
  function Retargeted(c: Source, to: Ref, readingMode: string): Source {
    c.(providerID := to.providerID, mangaID := to.mangaID,
       readingMode := if readingMode != "" then readingMode else c.readingMode)
  }

  function Apply(f: File, op: Op): File {
    if !Accepted(f, op) then f
    else match op
      case Add(ref) =>
        f.(providers := Firsts(if Bound(f.providers, ref.providerID, ref.mangaID) then Retitled(f.providers, ref)
                               else f.providers + [ref]))
      case Remove(providerID, mangaID, _) =>
        File(Firsts(Without(f.providers, providerID, mangaID)),
             if Active(f, providerID, mangaID) then None else f.content)
      case Switch(to, readingMode) =>
        File(Firsts(if Bound(f.providers, to.providerID, to.mangaID) then f.providers else f.providers + [to]),
             Some(Retargeted(if f.content.Some? then f.content.value else NO_SOURCE, to, readingMode)))
      case Merge(sources, choice) => File(Firsts(Union(f, sources)), Wanted(f, choice))
  }

  // ----- The invariant -----

  /** No pair is listed twice, and the active content source is listed. */
  predicate Consistent(f: File) {
    && KeysDistinct(f.providers)
    && (f.content.Some? ==> Bound(f.providers, f.content.value.providerID, f.content.value.mangaID))
  }

  lemma BoundGrows(a: seq<Ref>, b: seq<Ref>, providerID: string, mangaID: string)
    requires a <= b && Bound(a, providerID, mangaID)
    ensures Bound(b, providerID, mangaID)
  {
    var i :| 0 <= i < |a| && IsPair(a[i], providerID, mangaID);
    assert b[i] == a[i];
  }

  lemma {:induction false} WithoutIsTheRest(ps: seq<Ref>, providerID: string, mangaID: string)
    ensures var r := Without(ps, providerID, mangaID);
            && (forall p :: p in r <==> p in ps && (p.providerID != providerID || p.mangaID != mangaID))
            && (KeysDistinct(ps) ==> KeysDistinct(r))
    decreases |ps|
  {
    if ps != [] {
      var front, last := ps[..|ps| - 1], ps[|ps| - 1];
      assert ps == front + [last];
      WithoutIsTheRest(front, providerID, mangaID);
      var r := Without(front, providerID, mangaID);
      if KeysDistinct(ps) {
        assert KeysDistinct(front);
        forall i | 0 <= i < |r| ensures KeyOf(r[i]) != KeyOf(last) {
          assert r[i] in front;
          var j :| 0 <= j < |front| && front[j] == r[i];
          assert ps[j] == r[i] && ps[|ps| - 1] == last;
        }
      }
    }
  }

  /** What is left stands in the order it had. */
  lemma {:induction false} WithoutInOrder(ps: seq<Ref>, providerID: string, mangaID: string)
    ensures InOrder(ps, Without(ps, providerID, mangaID))
    decreases |ps|
  {
    if ps != [] {
      var front, last := ps[..|ps| - 1], ps[|ps| - 1];
      assert ps == front + [last];
      WithoutInOrder(front, providerID, mangaID);
      WithoutIsTheRest(front, providerID, mangaID);
      InOrderSnoc(front, Without(front, providerID, mangaID), last);
      hide InOrder;
    }
  }

  lemma AddStaysConsistent(f: File, ref: Ref)
    requires Consistent(f)
    ensures Consistent(Apply(f, Add(ref)))
    ensures !Clashes(f.providers, ref.providerID, ref.mangaID) ==>
              Bound(Apply(f, Add(ref)).providers, ref.providerID, ref.mangaID)
  {
    var n := Apply(f, Add(ref));
    if Bound(f.providers, ref.providerID, ref.mangaID) {
      var r := Retitled(f.providers, ref);
      FirstsOfDistinct(r);
      if f.content.Some? {
        SamePairs(f.providers, r, f.content.value.providerID, f.content.value.mangaID);
      }
      SamePairs(f.providers, r, ref.providerID, ref.mangaID);
    } else {
      AppendedIsBound(f.providers, ref);
      if f.content.Some? {
        BoundGrows(f.providers, n.providers, f.content.value.providerID, f.content.value.mangaID);
      }
    }
  }

  lemma SamePairs(a: seq<Ref>, b: seq<Ref>, providerID: string, mangaID: string)
    requires |a| == |b| && forall i :: 0 <= i < |a| ==> b[i] == a[i].(title := b[i].title)
    requires Bound(a, providerID, mangaID)
    ensures Bound(b, providerID, mangaID)
  {
    var i :| 0 <= i < |a| && IsPair(a[i], providerID, mangaID);
    assert IsPair(b[i], providerID, mangaID);
  }

  /** An appended ref survives deduplication exactly when its key is free. */
  lemma AppendedIsBound(ps: seq<Ref>, ref: Ref)
    requires KeysDistinct(ps) && !Bound(ps, ref.providerID, ref.mangaID)
    ensures var n := Firsts(ps + [ref]);
            && KeysDistinct(n) && ps <= n
            && (Bound(n, ref.providerID, ref.mangaID) <==> !Clashes(ps, ref.providerID, ref.mangaID))
  {
    FirstsOfDistinct(ps);
    FirstsSnoc(ps, ref);
    FirstsKeepKeys(ps + [ref]);
    var n := Firsts(ps + [ref]);
    if i :| 0 <= i < |ps| && KeyOf(ps[i]) == KeyOf(ref) {
      assert KeyOf(ps[i]) in Keys(ps) && !IsPair(ps[i], ref.providerID, ref.mangaID);
    } else {
      assert n[|ps|] == ref && IsPair(n[|ps|], ref.providerID, ref.mangaID);
    }
  }

  lemma RemoveStaysConsistent(f: File, op: Op)
    requires Consistent(f) && op.Remove?
    ensures Consistent(Apply(f, op))
    ensures Accepted(f, op) ==> !Bound(Apply(f, op).providers, op.providerID, op.mangaID)
  {
    hide Firsts, Without, KeysDistinct, SomeCapable, Keys, KeyOf, Wanted, Union, Retitled, Retargeted;
    if Accepted(f, op) {
      var r := Without(f.providers, op.providerID, op.mangaID);
      WithoutIsTheRest(f.providers, op.providerID, op.mangaID);
      FirstsOfDistinct(r);
      assert forall i :: 0 <= i < |r| ==> r[i] in r;
      if f.content.Some? && !Active(f, op.providerID, op.mangaID) {
        StillBound(f.providers, r, op, f.content.value);
      }
    }
  }

  lemma StillBound(ps: seq<Ref>, r: seq<Ref>, op: Op, c: Source)
    requires op.Remove? && forall p :: p in ps && !IsPair(p, op.providerID, op.mangaID) ==> p in r
    requires Bound(ps, c.providerID, c.mangaID) && (c.providerID != op.providerID || c.mangaID != op.mangaID)
    ensures Bound(r, c.providerID, c.mangaID)
  {
    var i :| 0 <= i < |ps| && IsPair(ps[i], c.providerID, c.mangaID);
    assert ps[i] in r;
    var j :| 0 <= j < |r| && r[j] == ps[i];
    assert IsPair(r[j], c.providerID, c.mangaID);
  }

  /** Switching keeps the active source listed exactly when no other pair is bound under its key. */
  lemma SwitchStaysConsistentIff(f: File, to: Ref, readingMode: string)
    requires Consistent(f)
    ensures Consistent(Apply(f, Switch(to, readingMode)))
            <==> Bound(f.providers, to.providerID, to.mangaID) || !Clashes(f.providers, to.providerID, to.mangaID)
  {
    if Bound(f.providers, to.providerID, to.mangaID) {
      FirstsOfDistinct(f.providers);
    } else {
      AppendedIsBound(f.providers, to);
    }
  }

  lemma MergeStaysConsistent(f: File, op: Op)
    requires op.Merge? && Consistent(f)
    ensures Consistent(Apply(f, op))
    ensures Accepted(f, op) ==> f.providers <= Apply(f, op).providers && Apply(f, op).providers == Union(f, op.sources)
  {
    if Accepted(f, op) {
      FirstsKeepKeys(f.providers + Flatten(op.sources));
      FirstsOfDistinct(Union(f, op.sources));
      FirstsGrow(f.providers, Flatten(op.sources));
      FirstsOfDistinct(f.providers);
    }
  }

  /** No provider id contains the key separator. */
  predicate PlainRefs(ps: seq<Ref>) {
    forall i :: 0 <= i < |ps| ==> NUL !in ps[i].providerID
  }

  predicate Plain(op: Op) {
    match op
    case Add(ref) => NUL !in ref.providerID
    case Remove(_, _, _) => true
    case Switch(to, _) => NUL !in to.providerID
    case Merge(sources, _) => PlainRefs(Flatten(sources))
  }

  function ApplyAll(f: File, ops: seq<Op>): File {
    if ops == [] then f else Apply(ApplyAll(f, ops[..|ops| - 1]), ops[|ops| - 1])
  }

  lemma NoClash(ps: seq<Ref>, ref: Ref)
    requires PlainRefs(ps) && NUL !in ref.providerID
    ensures !Clashes(ps, ref.providerID, ref.mangaID)
  {
    forall i | 0 <= i < |ps| && KeyOf(ps[i]) == KeyOf(ref) ensures IsPair(ps[i], ref.providerID, ref.mangaID) {
      KeysNamePairs(ps[i], ref);
    }
  }

  lemma {:induction false} FirstsStayPlain(ps: seq<Ref>)
    requires PlainRefs(ps)
    ensures PlainRefs(Firsts(ps))
    decreases |ps|
  {
    if ps != [] {
      FirstsStayPlain(ps[..|ps| - 1]);
    }
  }

  lemma ApplyStaysPlain(f: File, op: Op)
    requires PlainRefs(f.providers) && Plain(op)
    ensures PlainRefs(Apply(f, op).providers)
  {
    hide Firsts;
    match op
    case Add(ref) =>
      FirstsStayPlain(f.providers + [ref]);
      FirstsStayPlain(Retitled(f.providers, ref));
    case Remove(providerID, mangaID, _) =>
      var r := Without(f.providers, providerID, mangaID);
      WithoutIsTheRest(f.providers, providerID, mangaID);
      assert forall i :: 0 <= i < |r| ==> r[i] in r;
      FirstsStayPlain(r);
    case Switch(to, _) =>
      FirstsStayPlain(f.providers + [to]);
      FirstsStayPlain(f.providers);
    case Merge(sources, _) =>
      FirstsStayPlain(f.providers + Flatten(sources));
      FirstsStayPlain(Union(f, sources));
  }

  /** After any sequence of operations with plain provider ids, accepted or rejected, the bindings are consistent. */
  lemma {:induction false} BindingsStayConsistent(ops: seq<Op>)
    requires forall k :: 0 <= k < |ops| ==> Plain(ops[k])
    ensures Consistent(ApplyAll(EMPTY, ops)) && PlainRefs(ApplyAll(EMPTY, ops).providers)
    decreases |ops|
  {
    if ops != [] {
      hide Consistent, Apply, Plain, PlainRefs, Clashes, Bound;
      var op := ops[|ops| - 1];
      BindingsStayConsistent(ops[..|ops| - 1]);
      var f := ApplyAll(EMPTY, ops[..|ops| - 1]);
      ApplyStaysPlain(f, op);
      StepStaysConsistent(f, op);
    }
  }

  lemma StepStaysConsistent(f: File, op: Op)
    requires Consistent(f) && PlainRefs(f.providers) && Plain(op)
    ensures Consistent(Apply(f, op))
  {
    hide Consistent, Apply, PlainRefs, Clashes, Bound;
    match op
    case Add(ref) => AddStaysConsistent(f, ref);
    case Remove(_, _, _) => RemoveStaysConsistent(f, op);
    case Switch(to, mode) =>
      NoClash(f.providers, to);
      SwitchStaysConsistentIff(f, to, mode);
    case Merge(_, _) => MergeStaysConsistent(f, op);
  }

  /** What the removal guard achieves: the active source goes only if a content-capable provider stays. */
  lemma ActiveRemovalLeavesContent(f: File, op: Op)
    requires Consistent(f) && op.Remove? && Active(f, op.providerID, op.mangaID)
    ensures Apply(f, op) != f <==> SomeCapable(Without(f.providers, op.providerID, op.mangaID), op.caps)
    ensures Apply(f, op) != f ==> SomeCapable(Apply(f, op).providers, op.caps)
  {
    if Accepted(f, op) {
      WithoutIsTheRest(f.providers, op.providerID, op.mangaID);
      FirstsOfDistinct(Without(f.providers, op.providerID, op.mangaID));
    }
  }

  /**
   * A content-capable provider is left after every accepted removal of a pair, whatever the providers can do,
   * exactly when the pair is not bound, so that the removal fails, or is the active source.
   */
  lemma RemovalIsGuardedIff(f: File, providerID: string, mangaID: string)
    ensures (forall caps: string -> seq<string> :: Removable(f, providerID, mangaID, caps) ==>
               SomeCapable(Without(f.providers, providerID, mangaID), caps))
            <==> !Bound(f.providers, providerID, mangaID) || Active(f, providerID, mangaID)
  {
    if Bound(f.providers, providerID, mangaID) && !Active(f, providerID, mangaID) {
      var none: string -> seq<string> := (id: string) => [];
      assert Removable(f, providerID, mangaID, none) && !SomeCapable(Without(f.providers, providerID, mangaID), none);
    }
  }

  /** Without an active source the last content-capable provider can go. */
  lemma LastContentProviderCanGo(caps: string -> seq<string>)
    requires caps("p") == ["content"]
    ensures var f := File([Ref("p", "m", "")], None);
            SomeCapable(f.providers, caps) && Apply(f, Remove("p", "m", caps)) == EMPTY
  {
    var f := File([Ref("p", "m", "")], None);
    assert "content" in caps(f.providers[0].providerID);
    assert IsPair(f.providers[0], "p", "m");
    assert Without(f.providers, "p", "m") == [];
  }

  /** It can go beside an active source too, if that has lost the capability. */
  lemma LastContentProviderCanGoBesideActive(p: Ref, q: Ref, caps: string -> seq<string>)
    requires KeyOf(p) != KeyOf(q) && "content" in caps(p.providerID) && "content" !in caps(q.providerID)
    ensures var f := File([p, q], Some(NO_SOURCE.(providerID := q.providerID, mangaID := q.mangaID)));
            var op := Remove(p.providerID, p.mangaID, caps);
            && Consistent(f) && SomeCapable(f.providers, caps) && Accepted(f, op)
            && Apply(f, op) == f.(providers := [q]) && !SomeCapable([q], caps)
  {
    var f := File([p, q], Some(NO_SOURCE.(providerID := q.providerID, mangaID := q.mangaID)));
    WithoutFirst(p, q);
    TwoKeys(p, q);
    FirstsOfDistinct([q]);
    hide Firsts, Without, Keys, KeyOf, KeysDistinct, Wanted, Union, Retitled, Retargeted;
    assert IsPair(f.providers[0], p.providerID, p.mangaID) && IsPair(f.providers[1], q.providerID, q.mangaID);
    assert "content" in caps(f.providers[0].providerID);
  }

  lemma TwoKeys(p: Ref, q: Ref)
    requires KeyOf(p) != KeyOf(q)
    ensures KeysDistinct([p, q]) && KeysDistinct([q])
  {
  }

  lemma WithoutFirst(p: Ref, q: Ref)
    requires !IsPair(q, p.providerID, p.mangaID)
    ensures Without([p, q], p.providerID, p.mangaID) == [q]
  {
    assert [p, q][..1] == [p] && Without([p], p.providerID, p.mangaID) == [];
  }

  /** Two pairs that share a key: a switch to the second is dropped by deduplication, and content points nowhere. */
  lemma SwitchLosesClashingPair()
    ensures var f := File([Ref("a", "b\0c", "")], None);
            Consistent(f) && !Consistent(Apply(f, Switch(Ref("a\0b", "c", ""), "")))
  {
    var f, to := File([Ref("a", "b\0c", "")], None), Ref("a\0b", "c", "");
    assert KeyOf(f.providers[0]) == "a\0b\0c" == KeyOf(to);
    assert Clashes(f.providers, to.providerID, to.mangaID) && !Bound(f.providers, to.providerID, to.mangaID);
    SwitchStaysConsistentIff(f, to, "");
  }

  // ----- bindings.json -----

  /** The i-th ref, the first of the pair, has the new title unless that is empty; a pair not listed comes last. */
  predicate AddedAt(ps: seq<Ref>, changed: seq<Ref>, ref: Ref, i: nat) {
    && i <= |ps| && (forall k :: 0 <= k < i ==> ps[k].providerID != ref.providerID || ps[k].mangaID != ref.mangaID)
    && (i < |ps| ==> ps[i].providerID == ref.providerID && ps[i].mangaID == ref.mangaID)
    && changed == if i == |ps| then ps + [ref]
                  else ps[i := Ref(ref.providerID, ref.mangaID, if ref.title == "" then ps[i].title else ref.title)]
  }

  /** The bindings of one manga on disk. A save that fails leaves the file as it was. */
  class Store {
    var file: File

    constructor ()
      ensures file == EMPTY
    {
      file := EMPTY;
    }

    method Save(f: File, works: bool) returns (ok: bool)
      modifies this
      ensures ok == works
      ensures file == if works then f.(providers := Firsts(f.providers)) else old(file)
    {
      var out := Normalize(f.providers);
      if works {
        file := f.(providers := out);
      }
      ok := works;
    }

    method AddProvider(ref: Ref, works: bool) returns (ok: bool)
      modifies this
      ensures ok == works
      ensures works ==> file.content == old(file).content
                        && exists i, changed :: AddedAt(old(file).providers, changed, ref, i) && file.providers == Firsts(changed)
      ensures file == if works then Apply(old(file), Add(ref)) else old(file)
    {
      hide Firsts;
      var providers := file.providers;
      var i := 0;
      while i < |providers|
        invariant i <= |providers|
        invariant forall j :: 0 <= j < i ==> !IsPair(providers[j], ref.providerID, ref.mangaID)
      {
        if IsPair(providers[i], ref.providerID, ref.mangaID) {
          RetitledAt(providers, ref, i);
          if ref.title != "" {
            providers := providers[i := providers[i].(title := ref.title)];
          }
          assert AddedAt(file.providers, providers, ref, i);
          ok := Save(file.(providers := providers), works);
          return;
        }
        i := i + 1;
      }
      assert AddedAt(providers, providers + [ref], ref, i);
      ok := Save(file.(providers := providers + [ref]), works);
    }

    method RemoveProvider(providerID: string, mangaID: string, caps: string -> seq<string>, works: bool)
      returns (ok: bool)
      modifies this
      ensures ok <==> Accepted(old(file), Remove(providerID, mangaID, caps)) && works
      ensures var ps, active := old(file).providers, old(file).content.Some?
                                && old(file).content.value.providerID == providerID && old(file).content.value.mangaID == mangaID;
              && (ok <==> && works && (exists p :: p in ps && p.providerID == providerID && p.mangaID == mangaID)
                          && (active ==> exists p :: p in ps && (p.providerID != providerID || p.mangaID != mangaID)
                                                     && "content" in caps(p.providerID)))
              && (ok ==> file.content == if active then None else old(file).content)
      ensures ok ==> file.providers == Firsts(Without(old(file).providers, providerID, mangaID))
      ensures file == if works then Apply(old(file), Remove(providerID, mangaID, caps)) else old(file)
    {
      hide Firsts;
      var providers := file.providers;
      var found, newProviders := false, [];
      for i := 0 to |providers|
        invariant newProviders == Without(providers[..i], providerID, mangaID)
        invariant found <==> Bound(providers[..i], providerID, mangaID)
        invariant file == old(file)
      {
        assert providers[..i + 1][..i] == providers[..i];
        BoundSnoc(providers[..i], providers[i], providerID, mangaID);
        assert providers[..i + 1] == providers[..i] + [providers[i]];
        if IsPair(providers[i], providerID, mangaID) {
          found := true;
          continue;
        }
        newProviders := newProviders + [providers[i]];
      }
      assert providers[..|providers|] == providers;
      RemovalByFields(file, providerID, mangaID, caps);
      if !found {
        return false;
      }
      var content := file.content;
      if Active(file, providerID, mangaID) {
        var hasContent := FindCapable(newProviders, caps);
        if !hasContent {
          return false;
        }
        content := None;
      }
      ok := Save(File(newProviders, content), works);
    }

    /** `metaTitle` is the title in the manga's metadata, None if that cannot be read. */
    method SwitchContentProvider(providerID: string, mangaID: string, mangaTitle: string, metaTitle: Option<string>,
                                 readingMode: string, works: bool) returns (ok: bool)
      modifies this
      ensures ok == works
      ensures works ==>
                var ps, c := old(file).providers, if old(file).content.Some? then old(file).content.value else Source("", "", "", "", 0);
                && file.content == Some(Source(providerID, mangaID, c.chapterRef,
                                               if readingMode != "" then readingMode else c.readingMode, c.lastSyncedAt))
                && file.providers == if exists p :: p in ps && p.providerID == providerID && p.mangaID == mangaID then Firsts(ps)
                                     else Firsts(ps + [Ref(providerID, mangaID, if mangaTitle != "" || metaTitle == None
                                                                                then mangaTitle else metaTitle.value)])
      ensures var title := if mangaTitle != "" || metaTitle == None then mangaTitle else metaTitle.value;
              file == if works then Apply(old(file), Switch(Ref(providerID, mangaID, title), readingMode)) else old(file)
    {
      var title := mangaTitle;
      if title == "" {
        if metaTitle.Some? && metaTitle.value != "" {
          title := metaTitle.value;
        }
      }
      var to := Ref(providerID, mangaID, title);
      hide Firsts;
      var found := false;
      var i := 0;
      while i < |file.providers| && !found
        invariant i <= |file.providers| && file == old(file)
        invariant found ==> Bound(file.providers, to.providerID, to.mangaID)
        invariant !found ==> forall j :: 0 <= j < i ==> !IsPair(file.providers[j], to.providerID, to.mangaID)
      {
        if IsPair(file.providers[i], to.providerID, to.mangaID) {
          found := true;
        }
        i := i + 1;
      }
      BoundByFields(file.providers, providerID, mangaID);
      var providers := file.providers + if found then [] else [to];
      assert found ==> providers == file.providers;
      var content := if file.content.Some? then file.content.value else NO_SOURCE;
      content := content.(providerID := to.providerID, mangaID := to.mangaID);
      if readingMode != "" {
        content := content.(readingMode := readingMode);
      }
      ok := Save(File(providers, Some(content)), works);
    }
  }

  lemma BoundByFields(ps: seq<Ref>, providerID: string, mangaID: string)
    ensures Bound(ps, providerID, mangaID) <==> exists p :: p in ps && p.providerID == providerID && p.mangaID == mangaID
  {
    if Bound(ps, providerID, mangaID) {
      var i :| 0 <= i < |ps| && IsPair(ps[i], providerID, mangaID);
      assert ps[i] in ps;
    }
  }

  lemma RemovalByFields(f: File, providerID: string, mangaID: string, caps: string -> seq<string>)
    ensures var active := f.content.Some? && f.content.value.providerID == providerID && f.content.value.mangaID == mangaID;
            Removable(f, providerID, mangaID, caps)
            <==> && (exists p :: p in f.providers && p.providerID == providerID && p.mangaID == mangaID)
                 && (active ==> exists p :: p in f.providers && (p.providerID != providerID || p.mangaID != mangaID)
                                            && "content" in caps(p.providerID))
  {
    BoundByFields(f.providers, providerID, mangaID);
    WithoutIsTheRest(f.providers, providerID, mangaID);
    var r := Without(f.providers, providerID, mangaID);
    if SomeCapable(r, caps) {
      var i :| 0 <= i < |r| && "content" in caps(r[i].providerID);
      assert r[i] in r;
    }
    if p :| p in r && "content" in caps(p.providerID) {
      var i :| 0 <= i < |r| && r[i] == p;
      assert SomeCapable(r, caps);
    }
  }

  lemma {:induction false} RetitledAt(ps: seq<Ref>, ref: Ref, i: nat)
    requires i < |ps| && IsPair(ps[i], ref.providerID, ref.mangaID)
    requires forall j :: 0 <= j < i ==> !IsPair(ps[j], ref.providerID, ref.mangaID)
    ensures Retitled(ps, ref) == if ref.title == "" then ps else ps[i := ps[i].(title := ref.title)]
    decreases |ps|
  {
    if i > 0 && ref.title != "" {
      RetitledAt(ps[1..], ref, i - 1);
    }
  }

  lemma BoundSnoc(ps: seq<Ref>, p: Ref, providerID: string, mangaID: string)
    ensures Bound(ps + [p], providerID, mangaID) <==> Bound(ps, providerID, mangaID) || IsPair(p, providerID, mangaID)
  {
    var all := ps + [p];
    assert all[|ps|] == p && forall i :: 0 <= i < |ps| ==> all[i] == ps[i];
  }

  method FindCapable(ps: seq<Ref>, caps: string -> seq<string>) returns (found: bool)
    ensures found <==> SomeCapable(ps, caps)
  {
    var i := 0;
    found := false;
    while i < |ps| && !found
      invariant i <= |ps|
      invariant found ==> SomeCapable(ps, caps)
      invariant !found ==> forall k :: 0 <= k < i ==> "content" !in caps(ps[k].providerID)
    {
      var list := caps(ps[i].providerID);
      var j := 0;
      while j < |list| && !found
        invariant j <= |list|
        invariant found ==> "content" in list
        invariant !found ==> "content" !in list[..j]
      {
        if list[j] == "content" {
          found := true;
        }
        j := j + 1;
      }
      assert !found ==> list[..|list|] == list;
      i := i + 1;
    }
  }
}
