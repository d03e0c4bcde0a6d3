/**
 Granting, revoking and removing readers: what becomes of the access lists and key wraps of a shared realm.
 */
module PigSharing {
  import opened Bytes
  import opened Keys
  import opened PigTree
  import opened PigPages
  import opened PigRoots
  import opened PigCommits

  datatype Capabilities = Capabilities(read: bool, write: bool, admin: bool)

  function If(c: bool, s: set<Identity>): set<Identity> { if c then s else {} }

  /** The access lists after a grant. In a sealed realm writers and admins become readers, and admins writers. */
  function GrantedAccess(a: Access, secret: bool, who: Identity, c: Capabilities): Access {
    var one := {who};
    a.(readers := a.readers + If(c.read && a.readMembers, one) + If(secret && (c.write || c.admin), one),
      writers := a.writers + If(c.write, one) + If(secret && c.admin && a.writeMode.MembersWrite?, one),
      admins := a.admins + If(c.admin, one))
  }

  /** Whether the grant makes someone a reader of a sealed realm who has no key wrap yet. */
  predicate NeedsWrap(r: Realm, who: Identity, c: Capabilities) {
    r.secret && who in GrantedAccess(r.access, r.secret, who, c).readers && who !in Recipients(r.keyWraps)
  }

  function Granted(r: Realm, who: Identity, c: Capabilities, key: SymKey): Realm {
    r.(access := GrantedAccess(r.access, r.secret, who, c), keyWraps := if NeedsWrap(r, who, c) then r.keyWraps + [Wrap(r.id, who, key)] else r.keyWraps)
  }

  /** A grant keeps a shared realm well-formed: recipients are the readers, writers and admins of a sealed realm are among them. */
  lemma GrantKeepsRealm(r: Realm, identities: set<Identity>, who: Identity, c: Capabilities, key: SymKey)
    requires RealmOk(r, identities) && r.governance.Shared? && (c.write ==> r.access.writeMode.MembersWrite?)
    ensures RealmOk(Granted(r, who, c, key), identities + {who})
  {
    hide WrapsOk;
    var next := Granted(r, who, c, key);
    assert WrapsOk(next) by {
      GrantWraps(r, who, c, key);
    }
  }

  lemma GrantWraps(r: Realm, who: Identity, c: Capabilities, key: SymKey)
    requires WrapsOk(r) && AccessOk(r.access, r.secret) && r.governance.Shared?
    ensures WrapsOk(Granted(r, who, c, key))
  {
    var next := Granted(r, who, c, key);
    if NeedsWrap(r, who, c) {
      RecipientsSnoc(r.keyWraps, Wrap(r.id, who, key));
    }
  }

  lemma RecipientsSnoc(wraps: seq<Wrap>, w: Wrap)
    ensures Recipients(wraps + [w]) == Recipients(wraps) + {w.recipient}
    ensures DistinctRecipients(wraps) && w.recipient !in Recipients(wraps) ==> DistinctRecipients(wraps + [w])
  {
    var more := wraps + [w];
    assert more[|wraps|] == w;
    forall x | x in Recipients(wraps) ensures x in Recipients(more) {
      var i :| 0 <= i < |wraps| && wraps[i].recipient == x;
      assert more[i].recipient == x;
    }
    if w.recipient !in Recipients(wraps) {
      forall i | 0 <= i < |wraps| ensures wraps[i].recipient != w.recipient {
        assert wraps[i].recipient in Recipients(wraps);
      }
    }
  }

  predicate SameRights(before: Realm, after: Realm, who: Identity) {
    (who in after.access.readers <==> who in before.access.readers) && (who in after.access.writers <==> who in before.access.writers)
    && (who in after.access.admins <==> who in before.access.admins) && (MayWrite(after, Some(who)) <==> MayWrite(before, Some(who)))
  }

  /**
   A grant gives the target exactly what was asked for, in a sealed realm with what that needs, and changes nobody else's capabilities.
   The modes stay, and so do all key wraps; one is added exactly for a new reader of a sealed realm.
   */
  lemma GrantGivesExactly(r: Realm, who: Identity, c: Capabilities, key: SymKey, other: Identity)
    requires AccessOk(r.access, r.secret) && (c.write ==> r.access.writeMode.MembersWrite?)
    ensures var b, next := r.access, Granted(r, who, c, key);
      (who in next.access.admins <==> who in b.admins || c.admin)
      && (who in next.access.writers <==> who in b.writers || c.write || (r.secret && c.admin && b.writeMode.MembersWrite?))
      && (who in next.access.readers <==> who in b.readers || (c.read && b.readMembers) || (r.secret && (c.write || c.admin)))
      && (MayWrite(next, Some(who)) <==> MayWrite(r, Some(who)) || c.write || c.admin)
      && next.access.readMembers == b.readMembers && next.access.writeMode == b.writeMode
      && (other != who ==> SameRights(r, next, other))
    ensures var next := Granted(r, who, c, key);
      r.keyWraps <= next.keyWraps && |next.keyWraps| <= |r.keyWraps| + 1
      && (|next.keyWraps| > |r.keyWraps| <==> r.secret && who in next.access.readers && who !in Recipients(r.keyWraps))
      && (|next.keyWraps| > |r.keyWraps| ==> next.keyWraps[|r.keyWraps|] == Wrap(r.id, who, key))
      && next == r.(access := next.access, keyWraps := next.keyWraps)
  {
  }

  /** The access lists after a revocation: writing and administering can be taken away here. */
  function RevokedAccess(a: Access, who: Identity, c: Capabilities): Access {
    a.(writers := a.writers - If(c.write && a.writeMode.MembersWrite?, {who}), admins := a.admins - If(c.admin, {who}))
  }

  function Revoked(r: Realm, who: Identity, c: Capabilities): Realm { r.(access := RevokedAccess(r.access, who, c)) }

  lemma RevokeKeepsRealm(r: Realm, identities: set<Identity>, who: Identity, c: Capabilities)
    requires RealmOk(r, identities) && r.governance.Shared?
    ensures RealmOk(Revoked(r, who, c), identities)
  {
  }

  /**
   A revocation takes from the target exactly what it names, writing only where it goes by membership, and reading never. The others keep
   what they have. After revoking write and admin, a member-written realm is closed to the target.
   */
  lemma RevokeTakesExactly(r: Realm, who: Identity, c: Capabilities, other: Identity)
    ensures var b, next := r.access, Revoked(r, who, c);
      (who in next.access.admins <==> who in b.admins && !c.admin)
      && (who in next.access.writers <==> who in b.writers && !(c.write && b.writeMode.MembersWrite?))
      && next.access.readers == b.readers && next.access.readMembers == b.readMembers && next.access.writeMode == b.writeMode
      && (c.write && c.admin && b.writeMode.MembersWrite? ==> !MayWrite(next, Some(who)))
      && (other != who ==> SameRights(r, next, other))
      && next == r.(access := next.access)
  {
  }

  datatype SharingOp = Grants(who: Identity, c: Capabilities, key: SymKey) | Revokes(who: Identity, c: Capabilities)

  function AfterSharing(r: Realm, op: SharingOp): Realm {
    match op
    case Grants(who, c, key) => Granted(r, who, c, key)
    case Revokes(who, c) => Revoked(r, who, c)
  }

  function SharedAll(r: Realm, ops: seq<SharingOp>): Realm { if ops == [] then r else AfterSharing(SharedAll(r, ops[..|ops| - 1]), ops[|ops| - 1]) }

  /**
   Over any run of grants and revocations reading is never taken away: the readers only grow, every key wrap stays, and the new readers
   are among those granted something. Only a rekeying ends it.
   */
  lemma {:induction false} SharingNeverTakesReading(r: Realm, ops: seq<SharingOp>)
    ensures var next := SharedAll(r, ops);
      r.access.readers <= next.access.readers && r.keyWraps <= next.keyWraps && next.id == r.id && next.secret == r.secret
      && forall x | x in next.access.readers && x !in r.access.readers :: exists i | 0 <= i < |ops| :: ops[i].Grants? && ops[i].who == x
    decreases |ops|
  {
    if ops != [] {
      var n := |ops| - 1;
      SharingNeverTakesReading(r, ops[..n]);
      var next := SharedAll(r, ops);
      forall x | x in next.access.readers && x !in r.access.readers ensures exists i | 0 <= i < |ops| :: ops[i].Grants? && ops[i].who == x {
        if x in SharedAll(r, ops[..n]).access.readers {
          var i :| 0 <= i < n && ops[..n][i].Grants? && ops[..n][i].who == x;
          assert ops[i].Grants? && ops[i].who == x;
        } else {
          assert ops[n].Grants? && ops[n].who == x;
        }
      }
    }
  }

  // ----- rekeying

  function WithoutReaders(a: Access, gone: set<Identity>): Access {
    a.(readers := a.readers - gone, writers := if a.writeMode.MembersWrite? then a.writers - gone else a.writers, admins := a.admins - gone)
  }

  /** Those removed lose everything that goes by membership, and nobody else anything. */
  lemma RekeyTakesExactly(a: Access, gone: set<Identity>, who: Identity)
    ensures var b := WithoutReaders(a, gone);
      (who in b.readers <==> who in a.readers && who !in gone) && (who in b.admins <==> who in a.admins && who !in gone)
      && (who in b.writers <==> who in a.writers && !(who in gone && a.writeMode.MembersWrite?))
      && b.readMembers == a.readMembers && b.writeMode == a.writeMode
  {
  }

  /** Wraps of a new key for a set of readers, each once. */
  ghost predicate WrapsFor(wraps: seq<Wrap>, id: RealmId, readers: set<Identity>, key: SymKey) {
    Recipients(wraps) == readers && DistinctRecipients(wraps)
    && (forall i | 0 <= i < |wraps| :: wraps[i].realm == id) && forall i | 0 <= i < |wraps| :: wraps[i].key == key
  }

  /** `wrapKeyForWursterIdentity` for every remaining reader. */
  method WrapAll(id: RealmId, readers: set<Identity>, key: SymKey) returns (wraps: seq<Wrap>)
    ensures WrapsFor(wraps, id, readers, key)
  {
    wraps := [];
    var left := readers;
    while left != {}
      invariant left <= readers && WrapsFor(wraps, id, readers - left, key)
      decreases left
    {
      var who :| who in left;
      RecipientsSnoc(wraps, Wrap(id, who, key));
      wraps := wraps + [Wrap(id, who, key)];
      left := left - {who};
      assert readers - left == readers - left - {who} + {who};
    }
    assert readers - left == readers;
  }

  /** A rekeyed realm is well-formed: its recipients are exactly the remaining readers. */
  lemma RekeyKeepsRealm(r: Realm, identities: set<Identity>, gone: set<Identity>, wraps: seq<Wrap>, key: SymKey, pages: seq<CatalogPage>, stats: Stats)
    requires RealmOk(r, identities) && r.governance.Shared? && r.secret && WrapsFor(wraps, r.id, r.access.readers - gone, key)
    requires forall i | 0 <= i < |pages| :: pages[i].aad.Some?
    ensures RealmOk(r.(access := WithoutReaders(r.access, gone), keyWraps := wraps, catalogPages := pages, stats := stats), identities)
  {
  }

  /** A policy change of one shared realm by one of its administrators passes validation, whatever the locale. */
  lemma AdministeredChangePasses(t: Trust, parent: Root, realms: Realms, extra: set<Identity>, id: RealmId, actor: Option<Identity>, changes: seq<RealmChange>)
    requires WellFormed(t, parent) && id in parent.state.realms && realms.Keys == parent.state.realms.Keys
    requires Infers(changes, parent.state.realms, realms) && realms[id].id == id
    requires parent.state.realms[id].governance.Shared? && RealmAdmin(parent.state, parent.state.realms[id], actor)
    requires RealmOk(realms[id], parent.state.identities + extra)
    requires ContentOf(realms[id]) == ContentOf(parent.state.realms[id]) || MayWrite(parent.state.realms[id], actor)
    requires forall x | x in realms && x != id :: realms[x] == parent.state.realms[x]
    ensures Acceptable(t, parent, realms, extra, actor, changes)
  {
    hide RealmOk, MayWrite, Lt, RealmAdmin;
    var next := NextRoot(t, parent, 0, realms, extra, actor, changes);
    forall x | x in realms ensures realms[x].id == x && RealmOk(realms[x], next.state.identities) {
      assert RealmOk(parent.state.realms[x], parent.state.identities);
      MoreIdentities(realms[x], if x == id then parent.state.identities + extra else parent.state.identities, next.state.identities);
    }
    forall i | 0 <= i < |changes| ensures changes[i].realm == id && ChangeAllowed(parent.state, realms, actor, changes[i]) {
      assert ChangeOf(parent.state.realms, realms, changes[i].realm) == Some(changes[i]);
    }
    OneRealmChanged(changes, id);
  }

  /** New contents of a shared realm are refused from anyone who may not write it, root admins included. */
  lemma ContentNeedsWriter(t: Trust, parent: Root, realms: Realms, extra: set<Identity>, id: RealmId, actor: Option<Identity>, changes: seq<RealmChange>)
    requires id in parent.state.realms && id in realms && Infers(changes, parent.state.realms, realms) && realms[id].governance.Shared?
    requires parent.state.realms[id].governance.Shared? && ContentOf(realms[id]) != ContentOf(parent.state.realms[id]) && !MayWrite(parent.state.realms[id], actor)
    ensures !Acceptable(t, parent, realms, extra, actor, changes)
  {
    hide RealmsOk, MayWrite, Lt, RealmAdmin, ContentOf, NextRoot;
    assert ChangeOf(parent.state.realms, realms, id).Some?;
    var i :| 0 <= i < |changes| && changes[i].realm == id;
    assert !ChangeAllowed(parent.state, realms, actor, changes[i]);
  }

  /** What an administrator may do with one shared realm: anything that leaves its contents alone, and with the right to write everything. */
  lemma AdministeredChangeExact(t: Trust, parent: Root, realms: Realms, extra: set<Identity>, id: RealmId, actor: Option<Identity>, changes: seq<RealmChange>)
    requires WellFormed(t, parent) && id in parent.state.realms && realms.Keys == parent.state.realms.Keys
    requires Infers(changes, parent.state.realms, realms) && realms[id].id == id
    requires parent.state.realms[id].governance.Shared? && RealmAdmin(parent.state, parent.state.realms[id], actor)
    requires realms[id].governance.Shared? && RealmOk(realms[id], parent.state.identities + extra)
    requires forall x | x in realms && x != id :: realms[x] == parent.state.realms[x]
    ensures Acceptable(t, parent, realms, extra, actor, changes) <==>
      MayWrite(parent.state.realms[id], actor) || ContentOf(realms[id]) == ContentOf(parent.state.realms[id])
  {
    hide *;
    if MayWrite(parent.state.realms[id], actor) || ContentOf(realms[id]) == ContentOf(parent.state.realms[id]) {
      AdministeredChangePasses(t, parent, realms, extra, id, actor, changes);
    } else {
      ContentNeedsWriter(t, parent, realms, extra, id, actor, changes);
    }
  }

  // ----- an input on which rekeying is let in and then refused

  /** A sealed realm of one member, with one key and these pages. */
  function MembersRealm(key: SymKey, pages: seq<CatalogPage>): Realm {
    Realm([97], [], [], None, Shared, false, true, true, Access(true, {[2]}, MembersWrite, {[2]}, {[2]}), [Wrap([97], [2], key)], pages, Hidden(pages != []))
  }

  /** A root that someone else administers. */
  function OthersRoot(t: Trust, realm: Realm): Root {
    var state := State(Integrity, 1, None, None, {[1]}, {[1], [2]}, map[[97] := realm], Some(Mutation(None, [])));
    Root(state, None, t.stateHash(state), t.commitHash(t.stateHash(state), None))
  }

  /** The root admin [1] may administer the realm of [2] but not write it: a rekeying passes exactly if it leaves the pages as they were, which means none. */
  lemma RootAdminRekeys(t: Trust, key: SymKey, newKey: SymKey, pages: seq<CatalogPage>, newPages: seq<CatalogPage>, changes: seq<RealmChange>)
    requires forall i | 0 <= i < |pages| :: pages[i].aad.Some?
    requires forall i | 0 <= i < |newPages| :: newPages[i].aad.Some?
    requires var parent := OthersRoot(t, MembersRealm(key, pages)); Infers(changes, parent.state.realms, map[[97] := MembersRealm(newKey, newPages)])
    ensures var parent := OthersRoot(t, MembersRealm(key, pages));
      WellFormed(t, parent) && RealmAdmin(parent.state, MembersRealm(key, pages), Some([1])) && !MayWrite(MembersRealm(key, pages), Some([1]))
      && (Acceptable(t, parent, map[[97] := MembersRealm(newKey, newPages)], {}, Some([1]), changes) <==> newPages == pages)
  {
    hide Infers, Acceptable;
    var parent, realms := OthersRoot(t, MembersRealm(key, pages)), map[[97] := MembersRealm(newKey, newPages)];
    OnlyMember(key, pages, {[1], [2]});
    OnlyMember(newKey, newPages, {[1], [2]} + {});
    AdministeredChangeExact(t, parent, realms, {}, [97], Some([1]), changes);
  }

  lemma OnlyMember(key: SymKey, pages: seq<CatalogPage>, identities: set<Identity>)
    requires (forall i | 0 <= i < |pages| :: pages[i].aad.Some?) && {[1], [2]} <= identities
    ensures RealmOk(MembersRealm(key, pages), identities)
  {
    assert Recipients([Wrap([97], [2], key)]) == {[2]} by {
      assert [Wrap([97], [2], key)][0].recipient == [2];
    }
  }
}
