/**
 What validation means for realms of each kind: which realms are well-formed, which changes a step may make, and what therefore stays
 as it is along every verified chain.
 */
module PigGovernance {
  import opened Bytes
  import opened Keys
  import opened PigTree
  import opened PigPages
  import opened PigRoots
  import opened PigHistory
  import opened PigCommits

  // ----- well-formed realms, kind by kind

  /** Nobody is listed anywhere. */
  predicate NobodyListed(r: Realm) { r.access.readers == {} && r.access.writers == {} && r.access.admins == {} }

  /** Nothing is encrypted: no wrapped keys, and every catalog page is plain. */
  predicate Plain(r: Realm) { r.keyWraps == [] && forall i | 0 <= i < |r.catalogPages| :: r.catalogPages[i].aad.None? }

  /** Only readers can open it: one wrapped key of this realm for each of them, none for anyone else, and no plain catalog page. */
  ghost predicate Locked(r: Realm) {
    (forall who :: who in r.access.readers <==> exists i | 0 <= i < |r.keyWraps| :: r.keyWraps[i].recipient == who)
    && (forall i, j | 0 <= i < j < |r.keyWraps| :: r.keyWraps[i].recipient != r.keyWraps[j].recipient)
    && (forall i | 0 <= i < |r.keyWraps| :: r.keyWraps[i].realm == r.id)
    && forall i | 0 <= i < |r.catalogPages| :: r.catalogPages[i].aad.Some?
  }

  predicate QuotaOk(r: Realm) { r.quota.None? || r.quota.value > 0 }

  lemma LockedIs(r: Realm)
    ensures Locked(r) <==> (
      (forall i | 0 <= i < |r.keyWraps| :: r.keyWraps[i].realm == r.id) && Recipients(r.keyWraps) == r.access.readers
      && DistinctRecipients(r.keyWraps) && forall i | 0 <= i < |r.catalogPages| :: r.catalogPages[i].aad.Some?)
  {
  }

  /** An ordinary realm is plain, and everyone may read and write it. */
  lemma OrdinaryExactly(r: Realm, identities: set<Identity>)
    requires r.governance.Ordinary?
    ensures RealmOk(r, identities) <==>
      QuotaOk(r) && !r.secret && !r.audited && Plain(r) && !r.access.readMembers && r.access.writeMode.OpenWrite? && NobodyListed(r)
  {
  }

  /** The one who owns a claimed personal realm. */
  ghost predicate Owns(who: Identity, r: Realm) { r.access == Access(true, {who}, MembersWrite, {who}, {who}) }

  /** A personal realm is sealed. Unclaimed, it is nobody's and holds nothing; claimed, one known identity alone reads, writes and administers it. */
  lemma PersonalExactly(r: Realm, identities: set<Identity>)
    requires r.governance.Personal?
    ensures RealmOk(r, identities) <==>
      QuotaOk(r) && r.secret && !r.audited && r.access.readMembers && r.access.writeMode.MembersWrite?
      && (!r.claimed ==> NobodyListed(r) && r.keyWraps == [] && r.catalogPages == [])
      && (r.claimed ==> Locked(r) && exists who :: who in identities && Owns(who, r))
  {
    LockedIs(r);
    if RealmOk(r, identities) && r.claimed {
      var who :| who in r.access.admins && r.access.readers == {who} && r.access.writers == {who} && r.access.admins == {who};
      assert Owns(who, r) && who in identities;
    }
    if r.claimed && exists who :: who in identities && Owns(who, r) {
      var who :| who in identities && Owns(who, r);
      assert who in r.access.admins;
    }
  }

  /**
   A shared realm is not open for everyone to write, and lists known identities only. Lists that no mode uses are empty. A sealed one goes
   by membership, its writers and administrators are readers, and it is locked; any other is plain.
   */
  lemma SharedExactly(r: Realm, identities: set<Identity>)
    requires r.governance.Shared?
    ensures RealmOk(r, identities) <==>
      QuotaOk(r) && !r.access.writeMode.OpenWrite?
      && (forall who | who in r.access.readers || who in r.access.writers || who in r.access.admins :: who in identities)
      && (r.access.readMembers || r.access.readers == {}) && (r.access.writeMode.MembersWrite? || r.access.writers == {})
      && (!r.secret ==> Plain(r))
      && (r.secret ==> r.access.readMembers && r.access.writeMode.MembersWrite? && Locked(r))
      && (r.secret ==> forall who | who in r.access.writers || who in r.access.admins :: who in r.access.readers)
  {
    LockedIs(r);
    assert r.access.readers + r.access.writers + r.access.admins <= identities <==>
      forall who | who in r.access.readers || who in r.access.writers || who in r.access.admins :: who in identities;
  }

  // ----- what a step may do

  /** The identity that comes first in the sorted list of administrators. */
  predicate Heads(who: Identity, admins: set<Identity>) { who in admins && forall o | o in admins && o != who :: Lt(who, o) }

  /** Ordinary realms and claimed personal ones: their policy is fixed. */
  predicate Settled(r: Realm) { r.governance.Ordinary? || (r.governance.Personal? && r.claimed) }

  /** The right that the state before gives an actor over one realm. */
  predicate StepRight(p: State, after: Realms, actor: Option<Identity>, id: RealmId) {
    if id !in p.realms && id !in after then true
    else if id !in p.realms || id !in after then actor.Some? && actor.value in p.admins
    else
      var before, next := p.realms[id], after[id];
      var policy, content := PolicyOf(before) == PolicyOf(next), ContentOf(before) == ContentOf(next);
      match before.governance
      case Shared =>
        (policy || (actor.Some? && (actor.value in p.admins || actor.value in before.access.admins))) && (content || MayWrite(before, actor))
      case _ => policy || (!Settled(before) && content && actor.Some? && Heads(actor.value, next.access.admins) && (next.governance.Personal? ==> next.claimed))
  }

  /**
   The check of the inferred changes passes exactly if the actor has the right to every single step. Realms come and go by root admins
   alone. The policy of an ordinary or claimed realm cannot change, and the contents of realms that are not shared are not looked at.
   */
  lemma ChangesAllowedExactly(p: State, after: Realms, actor: Option<Identity>, changes: seq<RealmChange>)
    requires Infers(changes, p.realms, after)
    ensures (forall i | 0 <= i < |changes| :: ChangeAllowed(p, after, actor, changes[i])) <==> forall id :: StepRight(p, after, actor, id)
  {
    hide Lt, MayWrite, PolicyOf, ContentOf, StepRight, ChangeAllowed;
    if forall i | 0 <= i < |changes| :: ChangeAllowed(p, after, actor, changes[i]) {
      forall id ensures StepRight(p, after, actor, id) {
        if ChangeOf(p.realms, after, id).Some? {
          var i :| 0 <= i < |changes| && changes[i].realm == id;
          assert ChangeOf(p.realms, after, changes[i].realm) == Some(changes[i]);
          assert ChangeAllowed(p, after, actor, changes[i]);
        }
        OneStep(p, after, actor, id);
      }
    }
    if forall id :: StepRight(p, after, actor, id) {
      forall i | 0 <= i < |changes| ensures ChangeAllowed(p, after, actor, changes[i]) {
        assert ChangeOf(p.realms, after, changes[i].realm) == Some(changes[i]);
        assert StepRight(p, after, actor, changes[i].realm);
        OneStep(p, after, actor, changes[i].realm);
      }
    }
  }

  lemma OneStep(p: State, after: Realms, actor: Option<Identity>, id: RealmId)
    ensures var c := ChangeOf(p.realms, after, id);
      StepRight(p, after, actor, id) <==> (c.Some? ==> ChangeAllowed(p, after, actor, c.value))
  {
    hide Lt, MayWrite, PolicyOf, ContentOf;
    if id in after && actor.Some? {
      FirstHeads(actor.value, after[id].access.admins);
    }
  }

  lemma FirstHeads(who: Identity, admins: set<Identity>)
    ensures FirstAdmin(Some(who), admins) <==> Heads(who, admins)
  {
    hide Lt;
    forall o ensures AtMost(who, o) <==> who == o || Lt(who, o) {
      LtTotal(who, o);
      LtAsymmetric(who, o);
    }
  }

  // ----- what stays along a verified chain

  lemma LinkRight(t: Trust, links: seq<Link>, i: nat, id: RealmId)
    requires ValidChain(t, links) && 0 < i < |links|
    ensures StepRight(links[i - 1].root.state, links[i].root.state.realms, Actor(links[i].root), id)
    ensures forall k | k == i - 1 || k == i :: RealmsOk(links[k].root.state)
  {
    hide RealmsOk, StepRight, ChangeAllowed, SortDeclared, Infers;
    assert ValidLink(t, links, i) && ValidLink(t, links, i - 1);
    var p, s := links[i - 1].root.state, links[i].root.state;
    ChangesAllowedExactly(p, s.realms, Actor(links[i].root), SortDeclared(t.localeLess, s.mutation.value.changes));
  }

  /** The realm is there at every commit from one to another. */
  predicate Lives(links: seq<Link>, a: nat, b: nat, id: RealmId) { forall k | a <= k <= b && k < |links| :: id in links[k].root.state.realms }

  /**
   As long as it exists, an ordinary or claimed personal realm keeps its policy, whoever signs, root admins included: title, access lists,
   protection and key wraps. So the owner of a claimed personal realm never changes.
   */
  lemma {:induction false} SettledStays(t: Trust, links: seq<Link>, a: nat, b: nat, id: RealmId)
    requires ValidChain(t, links) && a <= b < |links| && Lives(links, a, b, id) && Settled(links[a].root.state.realms[id])
    ensures var u, v := links[a].root.state.realms[id], links[b].root.state.realms[id];
      PolicyOf(v) == PolicyOf(u) && Settled(v) && forall who :: Owns(who, u) ==> Owns(who, v)
    decreases b
  {
    hide ValidChain, RealmOk;
    if a < b {
      SettledStays(t, links, a, b - 1, id);
      LinkRight(t, links, b, id);
      assert id in links[b - 1].root.state.realms && id in links[b].root.state.realms;
      StaysClaimed(links[b - 1].root.state.realms[id], links[b - 1].root.state.identities, links[b].root.state.realms[id], links[b].root.state.identities);
    }
  }

  /** Whether a personal realm is claimed shows in its policy, although it is no part of it: someone administers it. */
  lemma ClaimedShows(r: Realm, identities: set<Identity>)
    requires RealmOk(r, identities) && r.governance.Personal?
    ensures r.claimed <==> r.access.admins != {}
  {
    hide RealmOk;
    PersonalExactly(r, identities);
    if r.claimed {
      var who :| who in identities && Owns(who, r);
      assert who in r.access.admins;
    }
  }

  lemma StaysClaimed(before: Realm, some: set<Identity>, after: Realm, others: set<Identity>)
    requires RealmOk(before, some) && RealmOk(after, others) && PolicyOf(before) == PolicyOf(after)
    ensures Settled(before) <==> Settled(after)
  {
    hide RealmOk;
    if before.governance.Personal? {
      ClaimedShows(before, some);
      ClaimedShows(after, others);
    }
  }

  /**
   An unclaimed personal realm that changes its policy does so by a signed commit that leaves its contents alone and ends in one of two ways:
   it is claimed, and the signer owns it, or it is a shared realm now, and the signer heads its administrators. The code means to let
   only the first happen.
   */
  lemma ClaimMeans(t: Trust, links: seq<Link>, i: nat, id: RealmId)
    requires ValidChain(t, links) && 0 < i < |links| && id in links[i - 1].root.state.realms && id in links[i].root.state.realms
    requires Unclaimed(links[i - 1].root.state.realms[id]) && PolicyOf(links[i].root.state.realms[id]) != PolicyOf(links[i - 1].root.state.realms[id])
    ensures var before, next, actor := links[i - 1].root.state.realms[id], links[i].root.state.realms[id], Actor(links[i].root);
      actor.Some? && ContentOf(next) == ContentOf(before)
      && ((next.governance.Personal? && next.claimed && Owns(actor.value, next)) || (next.governance.Shared? && Heads(actor.value, next.access.admins)))
  {
    hide ValidChain, RealmOk, Lt;
    LinkRight(t, links, i, id);
    var next, s := links[i].root.state.realms[id], links[i].root.state;
    if next.governance.Ordinary? {
      OrdinaryExactly(next, s.identities);
    } else if next.governance.Personal? {
      PersonalExactly(next, s.identities);
      var who :| Owns(who, next);
    }
  }

  /** Claiming: the signer becomes the owner, with a wrapped key, and everything else is as it was. The code keeps the realm personal. */
  function Claimed(r: Realm, who: Identity, key: SymKey, governance: Governance): Realm {
    r.(governance := governance, claimed := true, access := Access(true, {who}, MembersWrite, {who}, {who}), keyWraps := [Wrap(r.id, who, key)])
  }

  /** Any identity may claim an unclaimed personal realm, and nobody else has a say. Validation lets it become a shared one as well, next to another one. */
  lemma ClaimPasses(t: Trust, parent: Root, offset: nat, id: RealmId, who: Identity, key: SymKey, governance: Governance, changes: seq<RealmChange>)
    requires WellFormed(t, parent) && id in parent.state.realms && Unclaimed(parent.state.realms[id]) && CanSign(t, Some(who)) && Asymmetric(t.localeLess)
    requires governance.Personal? || (governance.Shared? && AnyShared(parent.state.realms))
    requires Infers(changes, parent.state.realms, parent.state.realms[id := Claimed(parent.state.realms[id], who, key, governance)])
    ensures var realms := parent.state.realms[id := Claimed(parent.state.realms[id], who, key, governance)];
      ValidTransition(t, LinkedParent(parent, realms), NextRoot(t, parent, offset, realms, {}, Some(who), changes), LinkedOffset(offset, realms))
  {
    hide ValidTransition, CanSign, Asymmetric, Infers, InLocaleOrder, RealmOk, Lt, ChangeAllowed, StepRight, AnyShared;
    var before := parent.state.realms;
    var realms := before[id := Claimed(before[id], who, key, governance)];
    var next := NextRoot(t, parent, 0, realms, {}, Some(who), changes).state;
    ClaimSharing(before, realms, id);
    forall x | x in realms ensures realms[x].id == x && RealmOk(realms[x], next.identities) {
      assert RealmOk(before[x], parent.state.identities);
      if x == id {
        ClaimedOk(before[id], parent.state.identities, who, key, governance, next.identities);
      } else {
        MoreIdentities(before[x], parent.state.identities, next.identities);
      }
    }
    forall x ensures StepRight(parent.state, realms, Some(who), x) {
      ClaimRight(parent.state, realms, id, who, key, governance, x);
    }
    ChangesAllowedExactly(parent.state, realms, Some(who), changes);
    OnlyClaimChanges(before, realms, id, changes);
    CommitPasses(t, parent, offset, realms, {}, Some(who), changes);
  }

  lemma ClaimSharing(before: Realms, realms: Realms, id: RealmId)
    requires id in before && id in realms && realms == before[id := realms[id]] && !before[id].governance.Shared?
    requires realms[id].governance.Shared? ==> AnyShared(before)
    ensures AnyShared(realms) == AnyShared(before)
  {
    if x :| x in before && before[x].governance.Shared? {
      assert realms[x].governance.Shared?;
    }
  }

  lemma ClaimedOk(r: Realm, some: set<Identity>, who: Identity, key: SymKey, governance: Governance, identities: set<Identity>)
    requires RealmOk(r, some) && Unclaimed(r) && who in identities && !governance.Ordinary?
    ensures RealmOk(Claimed(r, who, key, governance), identities)
  {
    hide RealmOk;
    var next := Claimed(r, who, key, governance);
    PersonalExactly(r, some);
    assert next.keyWraps[0].recipient == who;
    if governance.Personal? {
      PersonalExactly(next, identities);
      assert Owns(who, next);
    } else {
      SharedExactly(next, identities);
    }
  }

  lemma ClaimRight(p: State, realms: Realms, id: RealmId, who: Identity, key: SymKey, governance: Governance, x: RealmId)
    requires id in p.realms && Unclaimed(p.realms[id]) && realms == p.realms[id := Claimed(p.realms[id], who, key, governance)]
    ensures StepRight(p, realms, Some(who), x)
  {
    hide Lt, MayWrite;
  }

  lemma OnlyClaimChanges(before: Realms, realms: Realms, id: RealmId, changes: seq<RealmChange>)
    requires id in before && id in realms && realms == before[id := realms[id]] && Infers(changes, before, realms)
    ensures forall less :: InLocaleOrder(less, changes)
  {
    hide Lt;
    forall i | 0 <= i < |changes| ensures changes[i].realm == id {
      assert ChangeOf(before, realms, changes[i].realm) == Some(changes[i]);
    }
    OneRealmChanged(changes, id);
  }

  // ----- who writes

  /** The contents of a shared realm change only by a signed commit: of a listed writer or administrator, or of anyone if signing is all it takes. */
  lemma WritingNeedsSignature(t: Trust, links: seq<Link>, i: nat, id: RealmId)
    requires ValidChain(t, links) && 0 < i < |links| && id in links[i - 1].root.state.realms && id in links[i].root.state.realms
    requires links[i - 1].root.state.realms[id].governance.Shared?
    requires ContentOf(links[i].root.state.realms[id]) != ContentOf(links[i - 1].root.state.realms[id])
    ensures var a, actor := links[i - 1].root.state.realms[id].access, Actor(links[i].root);
      actor.Some? && (actor.value in a.admins || actor.value in a.writers || a.writeMode.AuthenticatedWrite?)
  {
    hide ValidChain, RealmOk;
    LinkRight(t, links, i, id);
    var r, s := links[i - 1].root.state.realms[id], links[i - 1].root.state;
    SharedExactly(r, s.identities);
  }

  /** Who may write a well-formed realm, kind by kind: everyone an ordinary one, the owner a personal one, and a shared one as its mode says. */
  lemma MayWriteExactly(r: Realm, identities: set<Identity>, actor: Option<Identity>)
    requires RealmOk(r, identities)
    ensures r.governance.Ordinary? ==> MayWrite(r, actor)
    ensures r.governance.Personal? ==> (MayWrite(r, actor) <==> actor.Some? && Owns(actor.value, r))
    ensures r.governance.Shared? ==> (MayWrite(r, actor) <==>
      actor.Some? && (r.access.writeMode.AuthenticatedWrite? || actor.value in r.access.admins || actor.value in r.access.writers))
  {
    hide RealmOk;
    match r.governance
    case Ordinary => OrdinaryExactly(r, identities);
    case Personal =>
      PersonalExactly(r, identities);
      if r.claimed {
        var who :| Owns(who, r);
        if actor.Some? && Owns(actor.value, r) {
          assert r.access.admins == {actor.value};
        }
      }
    case Shared => SharedExactly(r, identities);
  }

  // ----- what a signature is for

  /** One signature is good for one root: whoever shows it again with another state, generation, parent or history shows a root that fails. */
  lemma SignatureFixesRoot(t: Trust, a: Root, b: Root)
    requires Ideal(t) && WellFormed(t, a) && WellFormed(t, b) && a.authorization.Some? && b.authorization == a.authorization
    ensures a == b
  {
    hide RealmsOk, NeedsIntegrity;
  }

  /** A signed root is signed by a known identity, which is the one that its mutation names. */
  lemma SignerIsKnown(t: Trust, a: Root)
    requires WellFormed(t, a) && a.authorization.Some?
    ensures var s := a.authorization.value;
      t.genuine(s) && s.signer in a.state.identities && s.history == a.state.history && s.generation == a.state.generation
      && s.previousHash == a.state.previousHash && s.stateHash == t.stateHash(a.state)
      && a.state.mutation.Some? && a.state.mutation.value.actor == Some(s.signer)
  {
    hide RealmsOk, NeedsIntegrity;
  }
}
