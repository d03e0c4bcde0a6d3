/**
 The next PigFS root: how `commitRoot` builds it from the current one, and exactly when validation lets it pass.
 */
module PigCommits {
  import opened Bytes
  import opened Keys
  import opened PigTree
  import opened PigRoots
  import opened PigHistory

  type Realms = map<RealmId, Realm>

  predicate AnyShared(realms: Realms) { exists id | id in realms :: realms[id].governance.Shared? }

  /** The actor holds the private key, so every signature it makes is genuine. */
  ghost predicate CanSign(t: Trust, actor: Option<Identity>) { forall s: Signature | actor == Some(s.signer) :: t.genuine(s) }

  /** The root that `commitRoot` builds; with a shared realm it is linked to the current one and, if there is an actor, signed. */
  function NextRoot(t: Trust, parent: Root, offset: nat, realms: Realms, extra: set<Identity>, actor: Option<Identity>, changes: seq<RealmChange>): Root {
    var linked := AnyShared(realms);
    var identities := parent.state.identities + extra + (if actor.Some? then {actor.value} else {});
    var state := State(if linked then Integrity else NoHistory, parent.state.generation + 1, if linked then Some(offset) else None,
      if linked then Some(parent.commitHash) else None, parent.state.admins, identities, realms, if linked then Some(Mutation(actor, changes)) else None);
    var stateHash := t.stateHash(state);
    var authorization := if linked && actor.Some? then Some(Signature(actor.value, state.history, state.generation, state.previousHash, stateHash)) else None;
    Root(state, authorization, stateHash, t.commitHash(stateHash, authorization))
  }

  /** The root that `initialize` builds. */
  function FirstRoot(t: Trust, admins: set<Identity>, identities: set<Identity>, realms: Realms, actor: Option<Identity>, changes: seq<RealmChange>): Root {
    var linked := AnyShared(realms);
    var state := State(if linked then Integrity else NoHistory, 1, None, None, admins, identities, realms, if linked then Some(Mutation(actor, changes)) else None);
    var stateHash := t.stateHash(state);
    var authorization := if linked && actor.Some? then Some(Signature(actor.value, state.history, 1, None, stateHash)) else None;
    Root(state, authorization, stateHash, t.commitHash(stateHash, authorization))
  }

  /**
   What a built root is: the realms asked for under the same root admins, one generation on, with the identities known before, those brought
   along and the actor. With a shared realm it is linked to its parent, declares the changes and is signed by the actor, if there is one.
   */
  lemma NextFields(t: Trust, parent: Root, offset: nat, realms: Realms, extra: set<Identity>, actor: Option<Identity>, changes: seq<RealmChange>)
    ensures var r := NextRoot(t, parent, offset, realms, extra, actor, changes);
      r.state.realms == realms && r.state.admins == parent.state.admins && r.state.generation == parent.state.generation + 1
      && (forall who :: who in r.state.identities <==> who in parent.state.identities || who in extra || actor == Some(who))
      && HashesOk(t, r)
      && (AnyShared(realms) ==> r.state.history.Integrity? && r.state.previousHash == Some(parent.commitHash) && r.state.previousOffset == Some(offset))
      && (AnyShared(realms) ==> r.state.mutation == Some(Mutation(actor, changes)) && Actor(r) == actor)
      && (!AnyShared(realms) ==> r.state.history.NoHistory? && r.state.previousHash.None? && r.state.previousOffset.None? && r.state.mutation.None? && Actor(r).None?)
  {
    hide AnyShared;
  }

  lemma FirstFields(t: Trust, admins: set<Identity>, identities: set<Identity>, realms: Realms, actor: Option<Identity>, changes: seq<RealmChange>)
    ensures var r := FirstRoot(t, admins, identities, realms, actor, changes);
      r.state.realms == realms && r.state.admins == admins && r.state.identities == identities && r.state.generation == 1 && HashesOk(t, r)
      && r.state.previousHash.None? && r.state.previousOffset.None?
      && (AnyShared(realms) ==> r.state.history.Integrity? && r.state.mutation == Some(Mutation(actor, changes)) && Actor(r) == actor)
      && (!AnyShared(realms) ==> r.state.history.NoHistory? && r.state.mutation.None? && Actor(r).None?)
  {
    hide AnyShared;
  }

  /** A first root with a shared realm and root admins must be signed by one of them. */
  lemma FirstPasses(t: Trust, admins: set<Identity>, identities: set<Identity>, realms: Realms, actor: Option<Identity>, changes: seq<RealmChange>)
    requires CanSign(t, actor) && (actor.Some? ==> actor.value in identities)
    ensures var r := FirstRoot(t, admins, identities, realms, actor, changes);
      ValidTransition(t, None, r, None) <==> RealmsOk(r.state) && (AnyShared(realms) && admins != {} ==> actor.Some? && actor.value in admins)
  {
    hide RealmOk;
    SharedNeedsChain(FirstRoot(t, admins, identities, realms, actor, changes).state);
  }

  /** A state without history: nothing linked, nothing signed, at least generation 1. */
  function Standalone(s: State): State {
    State(NoHistory, if s.generation < 1 then 1 else s.generation, None, None, s.admins, s.identities, s.realms, None)
  }

  function StandaloneRoot(t: Trust, s: State): Root {
    var stateHash := t.stateHash(Standalone(s));
    Root(Standalone(s), None, stateHash, t.commitHash(stateHash, None))
  }

  /** It keeps realms, root admins and identities, and the generation, which is at least 1. */
  lemma StandaloneFields(t: Trust, s: State)
    ensures var r := StandaloneRoot(t, s);
      r.state.realms == s.realms && r.state.admins == s.admins && r.state.identities == s.identities && r.state.generation == Max(1, s.generation)
      && r.state.history.NoHistory? && Actor(r).None? && HashesOk(t, r)
  {
  }

  /** It passes exactly when its realms are well-formed and none of them is shared. */
  lemma StandalonePasses(t: Trust, s: State)
    ensures ValidTransition(t, None, StandaloneRoot(t, s), None) <==> RealmsOk(s) && !AnyShared(s.realms)
  {
    hide RealmOk;
    SharedNeedsChain(Standalone(s));
    assert RealmsOk(Standalone(s)) <==> RealmsOk(s);
  }

  /** The checks of a transition that a freshly built root can fail. */
  predicate Acceptable(t: Trust, parent: Root, realms: Realms, extra: set<Identity>, actor: Option<Identity>, changes: seq<RealmChange>) {
    RealmsOk(NextRoot(t, parent, 0, realms, extra, actor, changes).state)
    && (AnyShared(realms) ==> InLocaleOrder(t.localeLess, changes) && forall i | 0 <= i < |changes| :: ChangeAllowed(parent.state, realms, actor, changes[i]))
  }

  /** What validation sees as the parent: the current root, or nothing for a snapshot. */
  function LinkedParent(parent: Root, realms: Realms): Option<Root> { if AnyShared(realms) then Some(parent) else None }

  function LinkedOffset(offset: nat, realms: Realms): Option<nat> { if AnyShared(realms) then Some(offset) else None }

  /**
   A built root passes validation exactly when its realms are well-formed, every change is authorized in the current state,
   and `localeCompare` orders the changed realms as code units do.
   */
  lemma CommitPasses(t: Trust, parent: Root, offset: nat, realms: Realms, extra: set<Identity>, actor: Option<Identity>, changes: seq<RealmChange>)
    requires WellFormed(t, parent) && CanSign(t, actor) && Infers(changes, parent.state.realms, realms) && Asymmetric(t.localeLess)
    requires AnyShared(realms) == AnyShared(parent.state.realms)
    ensures ValidTransition(t, LinkedParent(parent, realms), NextRoot(t, parent, offset, realms, extra, actor, changes), LinkedOffset(offset, realms))
      <==> Acceptable(t, parent, realms, extra, actor, changes)
  {
    hide RealmOk, Infers, SortDeclared, ChangeAllowed, InLocaleOrder, Asymmetric;
    var next := NextRoot(t, parent, offset, realms, extra, actor, changes);
    SharedNeedsChain(parent.state);
    SharedNeedsChain(next.state);
    DeclarationPasses(t.localeLess, changes);
    NextWellFormed(t, parent, offset, realms, extra, actor, changes);
    if AnyShared(realms) && Infers(SortDeclared(t.localeLess, changes), parent.state.realms, realms) {
      InfersOnce(SortDeclared(t.localeLess, changes), changes, parent.state.realms, realms);
    }
    ActorOfNext(t, parent, offset, realms, extra, actor, changes);
  }

  lemma SharedNeedsChain(s: State)
    ensures NeedsIntegrity(s) <==> AnyShared(s.realms)
  {
  }

  lemma ActorOfNext(t: Trust, parent: Root, offset: nat, realms: Realms, extra: set<Identity>, actor: Option<Identity>, changes: seq<RealmChange>)
    ensures AnyShared(realms) ==> Actor(NextRoot(t, parent, offset, realms, extra, actor, changes)) == actor
  {
  }

  lemma NextWellFormed(t: Trust, parent: Root, offset: nat, realms: Realms, extra: set<Identity>, actor: Option<Identity>, changes: seq<RealmChange>)
    requires CanSign(t, actor)
    ensures WellFormed(t, NextRoot(t, parent, offset, realms, extra, actor, changes))
      <==> RealmsOk(NextRoot(t, parent, 0, realms, extra, actor, changes).state)
  {
    hide RealmOk;
    SharedNeedsChain(NextRoot(t, parent, offset, realms, extra, actor, changes).state);
  }

  /** More identities do not hurt a realm. */
  lemma MoreIdentities(r: Realm, some: set<Identity>, more: set<Identity>)
    requires RealmOk(r, some) && some <= more
    ensures RealmOk(r, more)
  {
    hide AccessOk, GovernanceOk, WrapsOk, PagesOk;
  }

  /** New contents of a realm: only its catalog and its statistics change. */
  predicate OnlyContent(before: Realm, after: Realm) { after == before.(catalogPages := after.catalogPages, stats := after.stats) }

  lemma ContentKeepsRealm(before: Realm, after: Realm, identities: set<Identity>, actor: Option<Identity>)
    requires RealmOk(before, identities) && OnlyContent(before, after) && MayWrite(before, actor) && PagesOk(after)
    ensures RealmOk(after, identities)
  {
    assert !Unclaimed(before);
  }

  lemma OneRealmChanged(changes: seq<RealmChange>, id: RealmId)
    requires forall i, j | 0 <= i < j < |changes| :: Lt(changes[i].realm, changes[j].realm)
    requires forall i | 0 <= i < |changes| :: changes[i].realm == id
    ensures |changes| <= 1
  {
    if |changes| > 1 {
      assert Lt(changes[0].realm, changes[1].realm);
      LtIrreflexive(id);
    }
  }

  /** A permitted write never fails validation, whatever the locale. */
  lemma PermittedWritePasses(t: Trust, parent: Root, realms: Realms, id: RealmId, actor: Option<Identity>, changes: seq<RealmChange>)
    requires WellFormed(t, parent) && id in parent.state.realms && realms.Keys == parent.state.realms.Keys
    requires Infers(changes, parent.state.realms, realms)
    requires OnlyContent(parent.state.realms[id], realms[id]) && MayWrite(parent.state.realms[id], actor) && PagesOk(realms[id])
    requires forall x | x in realms && x != id :: realms[x] == parent.state.realms[x]
    ensures Acceptable(t, parent, realms, {}, actor, changes)
  {
    hide RealmOk, MayWrite, Lt, PagesOk;
    var next := NextRoot(t, parent, 0, realms, {}, actor, changes);
    forall x | x in realms ensures realms[x].id == x && RealmOk(realms[x], next.state.identities) {
      assert RealmOk(parent.state.realms[x], parent.state.identities);
      if x == id {
        ContentKeepsRealm(parent.state.realms[id], realms[id], parent.state.identities, actor);
      }
      MoreIdentities(realms[x], parent.state.identities, next.state.identities);
    }
    forall i | 0 <= i < |changes| ensures changes[i].realm == id && ChangeAllowed(parent.state, realms, actor, changes[i]) {
      assert ChangeOf(parent.state.realms, realms, changes[i].realm) == Some(changes[i]);
    }
    OneRealmChanged(changes, id);
  }

  // ----- an input on which the two orders differ

  const DASH_ID: RealmId := [97, 45, 98]
  const UNDERSCORE_ID: RealmId := [97, 95, 98]

  /** An open shared realm that [1] administers. */
  function TitledRealm(id: RealmId, title: Key): Realm {
    Realm(id, title, [], None, Shared, false, false, true, Access(false, {}, MembersWrite, {}, {[1]}), [], [], Counted(0, 0, 0))
  }

  function TitledRealms(title: Key): Realms { map[DASH_ID := TitledRealm(DASH_ID, title), UNDERSCORE_ID := TitledRealm(UNDERSCORE_ID, title)] }

  function TitledRoot(t: Trust): Root {
    var state := State(Integrity, 1, None, None, {}, {[1]}, TitledRealms([]), Some(Mutation(None, [])));
    Root(state, None, t.stateHash(state), t.commitHash(t.stateHash(state), None))
  }

  lemma TitlesChange(changes: seq<RealmChange>)
    requires Infers(changes, TitledRealms([]), TitledRealms([120]))
    ensures |changes| == 2 && changes[0] == RealmChange(DASH_ID, false, false, true, false) && changes[1] == RealmChange(UNDERSCORE_ID, false, false, true, false)
  {
    hide Lt;
    var before, after := TitledRealms([]), TitledRealms([120]);
    var both := [RealmChange(DASH_ID, false, false, true, false), RealmChange(UNDERSCORE_ID, false, false, true, false)];
    DashFirst();
    assert both[0].realm == DASH_ID && both[1].realm == UNDERSCORE_ID;
    assert Infers(both, before, after);
    InfersOnce(both, changes, before, after);
  }

  lemma DashFirst()
    ensures Lt(DASH_ID, UNDERSCORE_ID) && !Lt(UNDERSCORE_ID, DASH_ID)
  {
    assert DASH_ID[1..] == [45, 98] && UNDERSCORE_ID[1..] == [95, 98];
  }

  /**
   A correct, fully authorized commit that retitles the realms "a-b" and "a_b" is refused exactly if `localeCompare` puts "a_b" first.
   Code units put "a-b" first.
   */
  lemma LocaleRefusesCommit(t: Trust, offset: nat, changes: seq<RealmChange>)
    requires CanSign(t, Some([1])) && Asymmetric(t.localeLess) && Infers(changes, TitledRealms([]), TitledRealms([120]))
    ensures var parent, realms, actor := TitledRoot(t), TitledRealms([120]), Some([1]);
      WellFormed(t, parent) && RealmsOk(NextRoot(t, parent, offset, realms, {}, actor, changes).state)
      && (forall i | 0 <= i < |changes| :: ChangeAllowed(parent.state, realms, actor, changes[i]))
      && (ValidTransition(t, LinkedParent(parent, realms), NextRoot(t, parent, offset, realms, {}, actor, changes), LinkedOffset(offset, realms))
        <==> !t.localeLess(UNDERSCORE_ID, DASH_ID))
  {
    hide Infers, ValidTransition, Lt, CanSign;
    var parent, realms, actor := TitledRoot(t), TitledRealms([120]), Some([1]);
    TitlesChange(changes);
    assert realms[DASH_ID].governance.Shared? && parent.state.realms[DASH_ID].governance.Shared?;
    TitledOk(DASH_ID, []);
    TitledOk(UNDERSCORE_ID, []);
    TitledOk(DASH_ID, [120]);
    TitledOk(UNDERSCORE_ID, [120]);
    CommitPasses(t, parent, offset, realms, {}, actor, changes);
    assert InLocaleOrder(t.localeLess, changes) <==> !t.localeLess(UNDERSCORE_ID, DASH_ID) by { TwoInOrder(t.localeLess, changes); }
  }

  lemma TwoInOrder(less: (Key, Key) -> bool, changes: seq<RealmChange>)
    requires |changes| == 2
    ensures InLocaleOrder(less, changes) <==> !less(changes[1].realm, changes[0].realm)
  {
  }

  lemma TitledOk(id: RealmId, title: Key)
    ensures RealmOk(TitledRealm(id, title), {[1]}) && RealmOk(TitledRealm(id, title), {[1]} + {} + {[1]})
  {
  }

  // ----- what no signature guards

  /** The same realm but for what neither digest covers: where it is mounted, its quota, and whether it counts as claimed. */
  predicate OnlyUnseen(before: Realm, after: Realm) { after == before.(mount := after.mount, quota := after.quota, claimed := after.claimed) }

  predicate AllOnlyUnseen(before: Realms, after: Realms) {
    before.Keys == after.Keys && forall id | id in before :: OnlyUnseen(before[id], after[id])
  }

  /** Authorization sees nothing of a transition exactly if every realm is the same but for these three fields. */
  lemma NothingSeen(before: Realms, after: Realms, changes: seq<RealmChange>)
    requires Infers(changes, before, after)
    ensures changes == [] <==> AllOnlyUnseen(before, after)
  {
    hide Lt;
    if changes == [] {
      forall id | id in before || id in after ensures id in before && id in after && OnlyUnseen(before[id], after[id]) {
        assert ChangeOf(before, after, id).None?;
      }
    } else {
      var id := changes[0].realm;
      assert ChangeOf(before, after, id) == Some(changes[0]);
      assert before.Keys == after.Keys ==> id in before && !OnlyUnseen(before[id], after[id]);
    }
  }

  /** Such a transition passes whoever makes it, signed or not, as long as the realms stay well-formed. */
  lemma UnseenPasses(t: Trust, parent: Root, offset: nat, realms: Realms, actor: Option<Identity>, changes: seq<RealmChange>)
    requires WellFormed(t, parent) && CanSign(t, actor) && Asymmetric(t.localeLess)
    requires AllOnlyUnseen(parent.state.realms, realms) && Infers(changes, parent.state.realms, realms)
    ensures ValidTransition(t, LinkedParent(parent, realms), NextRoot(t, parent, offset, realms, {}, actor, changes), LinkedOffset(offset, realms))
      <==> RealmsOk(NextRoot(t, parent, offset, realms, {}, actor, changes).state)
  {
    hide Infers, ValidTransition, RealmOk, WellFormed, CanSign, Asymmetric, ChangeAllowed, OnlyUnseen;
    NothingSeen(parent.state.realms, realms, changes);
    UnseenSharing(parent.state.realms, realms);
    CommitPasses(t, parent, offset, realms, {}, actor, changes);
  }

  /** A new root over the same realms is always acceptable. */
  lemma UnchangedPasses(t: Trust, parent: Root, actor: Option<Identity>, changes: seq<RealmChange>)
    requires WellFormed(t, parent) && Infers(changes, parent.state.realms, parent.state.realms)
    ensures Acceptable(t, parent, parent.state.realms, {}, actor, changes)
  {
    hide Infers, RealmOk, ChangeAllowed;
    var realms := parent.state.realms;
    NothingSeen(realms, realms, changes);
    var next := NextRoot(t, parent, 0, realms, {}, actor, changes);
    forall id | id in realms ensures realms[id].id == id && RealmOk(realms[id], next.state.identities) {
      MoreIdentities(realms[id], parent.state.identities, next.state.identities);
    }
  }

  lemma UnseenSharing(before: Realms, after: Realms)
    requires AllOnlyUnseen(before, after)
    ensures AnyShared(before) == AnyShared(after)
  {
    if id :| id in before && before[id].governance.Shared? {
      assert OnlyUnseen(before[id], after[id]);
    }
    if id :| id in after && after[id].governance.Shared? {
      assert OnlyUnseen(before[id], after[id]);
    }
  }

  /** An unsigned commit moves both realms of [1] to other mounts and limits them to one byte. */
  lemma UnsignedRemount(t: Trust, offset: nat, mount: Path, changes: seq<RealmChange>)
    requires Asymmetric(t.localeLess)
    requires var before := TitledRealms([]); Infers(changes, before, map id | id in before :: before[id].(mount := mount, quota := Some(1)))
    ensures var parent, before := TitledRoot(t), TitledRealms([]);
      var realms: Realms := map id | id in before :: before[id].(mount := mount, quota := Some(1));
      var next := NextRoot(t, parent, offset, realms, {}, None, changes);
      WellFormed(t, parent) && next.authorization == None && ValidTransition(t, Some(parent), next, Some(offset))
  {
    hide Infers, ValidTransition, Asymmetric;
    var parent, before := TitledRoot(t), TitledRealms([]);
    var realms: Realms := map id | id in before :: before[id].(mount := mount, quota := Some(1));
    TitledOk(DASH_ID, []);
    TitledOk(UNDERSCORE_ID, []);
    assert before[DASH_ID].governance.Shared? && realms[DASH_ID].governance.Shared?;
    UnseenPasses(t, parent, offset, realms, None, changes);
  }
}
