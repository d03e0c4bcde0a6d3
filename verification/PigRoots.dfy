/**
 PigFS roots: realms and their governance, and what a root must satisfy on its own and as a successor of another.
 Hashes, identity records and signatures are ideal.
 */
module PigRoots {
  import opened Bytes
  import opened Keys
  import opened PigTree
  import opened PigPages

  type RealmId = Key

  datatype Governance = Ordinary | Personal | Shared

  datatype WriteMode = MembersWrite | AuthenticatedWrite | OpenWrite

  /** Who may read, write and administer. Without member mode the corresponding list is empty. */
  datatype Access = Access(readMembers: bool, readers: set<Identity>, writeMode: WriteMode, writers: set<Identity>, admins: set<Identity>)

  /** The realm key, wrapped for one reader. */
  datatype Wrap = Wrap(realm: RealmId, recipient: Identity, key: SymKey)

  datatype Stats = Counted(files: nat, directories: nat, logicalBytes: nat) | Hidden(hasEntries: bool)

  datatype Realm = Realm(id: RealmId, title: Key, mount: Path, quota: Option<nat>, governance: Governance, audited: bool, secret: bool, claimed: bool,
    access: Access, keyWraps: seq<Wrap>, catalogPages: seq<CatalogPage>, stats: Stats)

  type Hash = int

  datatype HistoryMode = NoHistory | Integrity

  datatype RealmChange = RealmChange(realm: RealmId, created: bool, deleted: bool, policy: bool, content: bool)

  datatype Mutation = Mutation(actor: Option<Identity>, changes: seq<RealmChange>)

  /** What a commit signature covers. */
  datatype Signature = Signature(signer: Identity, history: HistoryMode, generation: nat, previousHash: Option<Hash>, stateHash: Hash)

  /** Everything that the state hash covers. */
  datatype State = State(history: HistoryMode, generation: nat, previousOffset: Option<nat>, previousHash: Option<Hash>, admins: set<Identity>,
    identities: set<Identity>, realms: map<RealmId, Realm>, mutation: Option<Mutation>)

  datatype Root = Root(state: State, authorization: Option<Signature>, stateHash: Hash, commitHash: Hash)

  /** Hashing, which signatures were really made, and the order that `localeCompare` puts realm ids in. */
  datatype Trust = Trust(stateHash: State -> Hash, commitHash: (Hash, Option<Signature>) -> Hash, genuine: Signature -> bool, localeLess: (Key, Key) -> bool)

  /** Different states have different hashes, and so have different commits. */
  ghost predicate Ideal(t: Trust) {
    && (forall a: State, b: State {:trigger t.stateHash(a), t.stateHash(b)} :: t.stateHash(a) == t.stateHash(b) ==> a == b)
    && (forall h: Hash, g: Hash, a: Option<Signature>, b: Option<Signature> {:trigger t.commitHash(h, a), t.commitHash(g, b)} ::
      t.commitHash(h, a) == t.commitHash(g, b) ==> h == g && a == b)
  }

  // ----- one realm

  function Recipients(wraps: seq<Wrap>): set<Identity> { set i | 0 <= i < |wraps| :: wraps[i].recipient }

  predicate DistinctRecipients(wraps: seq<Wrap>) { forall i, j | 0 <= i < j < |wraps| :: wraps[i].recipient != wraps[j].recipient }

  /** `normalizePigFsRealmAccess`. */
  predicate AccessOk(a: Access, secret: bool) {
    && (a.readMembers || a.readers == {}) && (a.writeMode.MembersWrite? || a.writers == {})
    && (secret ==> a.readMembers && a.writeMode.MembersWrite? && a.writers <= a.readers && a.admins <= a.readers)
  }

  predicate GovernanceOk(r: Realm) {
    match r.governance
    case Ordinary => !r.secret && !r.access.readMembers && r.access.writeMode.OpenWrite? && r.access.admins == {}
    case Personal =>
      r.secret && (if r.claimed then exists o | o in r.access.admins :: r.access.readers == {o} && r.access.writers == {o} && r.access.admins == {o}
        else r.access.readers == {} && r.access.writers == {} && r.access.admins == {} && r.keyWraps == [] && r.catalogPages == [])
    case Shared => !r.access.writeMode.OpenWrite?
  }

  predicate Unclaimed(r: Realm) { r.governance.Personal? && !r.claimed }

  /** Key wraps: none in a public realm, exactly one for every reader of a sealed one. */
  predicate WrapsOk(r: Realm) {
    if !r.secret || Unclaimed(r) then r.keyWraps == []
    else (forall i | 0 <= i < |r.keyWraps| :: r.keyWraps[i].realm == r.id) && Recipients(r.keyWraps) == r.access.readers && DistinctRecipients(r.keyWraps)
  }

  predicate PagesOk(r: Realm) { forall i | 0 <= i < |r.catalogPages| :: r.catalogPages[i].aad.Some? <==> r.secret }

  /** `validateRealmDescriptor`. */
  predicate RealmOk(r: Realm, identities: set<Identity>) {
    && (r.quota.Some? ==> r.quota.value > 0)
    && AccessOk(r.access, r.secret) && GovernanceOk(r) && (r.audited ==> r.governance.Shared?)
    && r.access.readers + r.access.writers + r.access.admins <= identities
    && WrapsOk(r) && PagesOk(r) && (Unclaimed(r) ==> r.catalogPages == [])
  }

  predicate RealmsOk(s: State) { forall id | id in s.realms :: s.realms[id].id == id && RealmOk(s.realms[id], s.identities) }

  /** `pigFsRealmCapabilities(...).write`. */
  predicate MayWrite(r: Realm, actor: Option<Identity>) {
    (actor.Some? && actor.value in r.access.admins)
    || r.access.writeMode.OpenWrite?
    || (r.access.writeMode.AuthenticatedWrite? && actor.Some?)
    || (r.access.writeMode.MembersWrite? && actor.Some? && actor.value in r.access.writers)
  }

  predicate RootAdmin(s: State, actor: Option<Identity>) { actor.Some? && actor.value in s.admins }

  predicate RealmAdmin(s: State, r: Realm, actor: Option<Identity>) { RootAdmin(s, actor) || (actor.Some? && actor.value in r.access.admins) }

  // ----- one transition

  /** What the policy digest covers. Mounts and quotas are not in it. */
  datatype Policy = Policy(id: RealmId, title: Key, governance: Governance, audited: bool, secret: bool, access: Access, keyWraps: seq<Wrap>)

  function PolicyOf(r: Realm): Policy { Policy(r.id, r.title, r.governance, r.audited, r.secret, r.access, r.keyWraps) }

  datatype Content = Content(catalogPages: seq<CatalogPage>, stats: Stats)

  function ContentOf(r: Realm): Content { Content(r.catalogPages, r.stats) }

  /** How one realm changes between two states. */
  function ChangeOf(before: map<RealmId, Realm>, after: map<RealmId, Realm>, id: RealmId): Option<RealmChange> {
    if id !in before && id !in after then None
    else if id !in before then Some(RealmChange(id, true, false, true, true))
    else if id !in after then Some(RealmChange(id, false, true, true, true))
    else
      var policy, content := PolicyOf(before[id]) != PolicyOf(after[id]), ContentOf(before[id]) != ContentOf(after[id]);
      if policy || content then Some(RealmChange(id, false, false, policy, content)) else None
  }

  /** `inferRealmChanges`: the changed realms, in code unit order. */
  ghost predicate Infers(changes: seq<RealmChange>, before: map<RealmId, Realm>, after: map<RealmId, Realm>) {
    && (forall i, j | 0 <= i < j < |changes| :: Lt(changes[i].realm, changes[j].realm))
    && (forall i | 0 <= i < |changes| :: ChangeOf(before, after, changes[i].realm) == Some(changes[i]))
    && (forall id | ChangeOf(before, after, id).Some? :: exists i | 0 <= i < |changes| :: changes[i].realm == id)
  }

  /** The stable sort of declared changes by `localeCompare`. */
  function SortDeclared(less: (Key, Key) -> bool, changes: seq<RealmChange>): seq<RealmChange> {
    if changes == [] then [] else InsertDeclared(less, SortDeclared(less, changes[..|changes| - 1]), changes[|changes| - 1])
  }

  function InsertDeclared(less: (Key, Key) -> bool, sorted: seq<RealmChange>, c: RealmChange): seq<RealmChange> {
    if sorted == [] || !less(c.realm, sorted[|sorted| - 1].realm) then sorted + [c]
    else InsertDeclared(less, sorted[..|sorted| - 1], c) + [sorted[|sorted| - 1]]
  }

  /** The actor heads the sorted list of admins. */
  predicate FirstAdmin(actor: Option<Identity>, admins: set<Identity>) {
    actor.Some? && actor.value in admins && forall o | o in admins :: AtMost(actor.value, o)
  }

  /** One change of a realm is authorized by the parent state. */
  predicate ChangeAllowed(parent: State, after: map<RealmId, Realm>, actor: Option<Identity>, c: RealmChange) {
    if c.created || c.deleted then RootAdmin(parent, actor)
    else if c.realm !in parent.realms || c.realm !in after then false
    else
      var before, next := parent.realms[c.realm], after[c.realm];
      if before.governance.Shared? then (c.policy ==> RealmAdmin(parent, before, actor)) && (c.content ==> MayWrite(before, actor))
      else c.policy ==>
        before.governance.Personal? && !before.claimed && (next.governance.Personal? ==> next.claimed) && FirstAdmin(actor, next.access.admins) && !c.content
  }

  function Actor(r: Root): Option<Identity> { if r.authorization.None? then None else Some(r.authorization.value.signer) }

  /** The signature, if there is one, is genuine, covers exactly this root, and its signer is known. */
  predicate Authorized(t: Trust, r: Root) {
    r.authorization.Some? ==>
      var a := r.authorization.value;
      t.genuine(a) && a.signer in r.state.identities
      && a == Signature(a.signer, r.state.history, r.state.generation, r.state.previousHash, r.stateHash)
  }

  predicate HashesOk(t: Trust, r: Root) { r.stateHash == t.stateHash(r.state) && r.commitHash == t.commitHash(r.stateHash, r.authorization) }

  predicate NeedsIntegrity(s: State) { exists id | id in s.realms :: s.realms[id].governance.Shared? }

  /** The checks on a root that need no parent. */
  predicate WellFormed(t: Trust, r: Root) {
    var s := r.state;
    s.generation >= 1 && RealmsOk(s) && HashesOk(t, r)
    && match s.history
      case NoHistory => !NeedsIntegrity(s) && s.previousHash.None? && s.previousOffset.None? && r.authorization.None? && s.mutation.None?
      case Integrity => s.mutation.Some? && s.mutation.value.actor == Actor(r) && Authorized(t, r)
  }

  predicate GenesisOk(r: Root) {
    var s := r.state;
    s.generation == 1 && s.previousHash.None? && s.previousOffset.None? && (s.admins != {} ==> Actor(r).Some? && Actor(r).value in s.admins)
  }

  /** The checks of an integrity successor. */
  ghost predicate SuccessorOk(t: Trust, parent: Root, r: Root, parentOffset: Option<nat>) {
    var p, s := parent.state, r.state;
    p.history.Integrity? && p.identities <= s.identities
    && s.generation == p.generation + 1 && s.previousHash == Some(parent.commitHash) && (parentOffset.Some? ==> s.previousOffset == parentOffset)
    && (s.admins != p.admins ==> RootAdmin(p, Actor(r)))
    && s.mutation.Some?
    && var changes := SortDeclared(t.localeLess, s.mutation.value.changes);
      Infers(changes, p.realms, s.realms) && forall i | 0 <= i < |changes| :: ChangeAllowed(p, s.realms, Actor(r), changes[i])
  }

  /** `validatePigFsTransition`. */
  ghost predicate ValidTransition(t: Trust, parent: Option<Root>, r: Root, parentOffset: Option<nat>) {
    WellFormed(t, r)
    && (r.state.history.Integrity? ==> if parent.None? then GenesisOk(r) else SuccessorOk(t, parent.value, r, parentOffset))
  }
}
