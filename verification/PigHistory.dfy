/**
 Verified PigFS histories: inferring changes, validating transitions, walking the hash-linked chain,
 and what follows for every chain that passes.
 */
module PigHistory {
  import opened Bytes
  import opened Keys
  import opened SortedEntries
  import opened PigTree
  import opened PigRoots

  // ----- inferring changes

  function ChangesIn(es: seq<Entry<RealmChange>>): (r: seq<RealmChange>)
    ensures |r| == |es| && forall i | 0 <= i < |r| :: r[i] == es[i].value
  {
    seq(|es|, i requires 0 <= i < |es| => es[i].value)
  }

  /** The changed realms among some ids. */
  ghost predicate ChangesAmong(es: seq<Entry<RealmChange>>, ids: set<RealmId>, before: map<RealmId, Realm>, after: map<RealmId, Realm>) {
    Sorted(es) && (forall id :: id in AsMap(es) <==> id in ids && ChangeOf(before, after, id).Some?)
    && forall id | id in AsMap(es) :: ChangeOf(before, after, id) == Some(AsMap(es)[id])
  }

  method InferChanges(before: map<RealmId, Realm>, after: map<RealmId, Realm>) returns (changes: seq<RealmChange>)
    ensures Infers(changes, before, after)
  {
    hide Lt, Put, AsMap, ChangeOf;
    var es: seq<Entry<RealmChange>> := [];
    var left := before.Keys + after.Keys;
    ghost var done: set<RealmId> := {};
    NoChanges(before, after);
    while left != {}
      invariant left + done == before.Keys + after.Keys && ChangesAmong(es, done, before, after)
      decreases left
    {
      var id :| id in left;
      var change := ChangeOf(before, after, id);
      if change.Some? {
        PutSorted(es, id, change.value);
        PutMap(es, id, change.value);
        es := Put(es, id, change.value);
      }
      left, done := left - {id}, done + {id};
    }
    ListingInfers(es, done, before, after);
    return ChangesIn(es);
  }

  lemma NoChanges(before: map<RealmId, Realm>, after: map<RealmId, Realm>)
    ensures ChangesAmong([], {}, before, after)
  {
  }

  lemma ListingInfers(es: seq<Entry<RealmChange>>, ids: set<RealmId>, before: map<RealmId, Realm>, after: map<RealmId, Realm>)
    requires ChangesAmong(es, ids, before, after) && ids == before.Keys + after.Keys
    ensures Infers(ChangesIn(es), before, after)
  {
    hide Lt, AsMap;
    forall i | 0 <= i < |es| ensures ChangeOf(before, after, es[i].key) == Some(es[i].value) && es[i].value.realm == es[i].key {
      FindEntry(es, i);
      FindInMap(es, es[i].key);
    }
    forall id | ChangeOf(before, after, id).Some? ensures exists i | 0 <= i < |es| :: ChangesIn(es)[i].realm == id {
      KeysOfMap(es, id);
      var i :| 0 <= i < |es| && es[i].key == id;
      assert ChangesIn(es)[i].realm == id;
    }
  }

  /** Two states have only one list of inferred changes. */
  lemma {:induction false} InfersOnce(a: seq<RealmChange>, b: seq<RealmChange>, before: map<RealmId, Realm>, after: map<RealmId, Realm>)
    requires Infers(a, before, after) && Infers(b, before, after)
    ensures a == b
  {
    hide Lt, ChangeOf;
    SameChangesFrom(a, b, before, after, 0);
    assert a[0..] == a && b[0..] == b;
  }

  lemma {:induction false} SameChangesFrom(a: seq<RealmChange>, b: seq<RealmChange>, before: map<RealmId, Realm>, after: map<RealmId, Realm>, k: nat)
    requires Infers(a, before, after) && Infers(b, before, after) && k <= |a| && k <= |b| && a[..k] == b[..k]
    ensures a[k..] == b[k..]
    decreases |a| - k
  {
    hide Lt, ChangeOf;
    if k < |a| && k < |b| {
      HeadNotLess(a, b, before, after, k);
      HeadNotLess(b, a, before, after, k);
      LtTotal(a[k].realm, b[k].realm);
      assert a[..k + 1] == a[..k] + [a[k]] && b[..k + 1] == b[..k] + [b[k]];
      SameChangesFrom(a, b, before, after, k + 1);
      assert a[k..] == [a[k]] + a[k + 1..] && b[k..] == [b[k]] + b[k + 1..];
    } else if k < |a| {
      NotListedLater(a, b, before, after, k);
    } else if k < |b| {
      NotListedLater(b, a, before, after, k);
    }
  }

  /** An entry of one listing is found in the other, not before its own place. */
  lemma FoundLater(a: seq<RealmChange>, b: seq<RealmChange>, before: map<RealmId, Realm>, after: map<RealmId, Realm>, k: nat) returns (i: nat)
    requires Infers(a, before, after) && Infers(b, before, after) && k < |a| && k <= |b| && a[..k] == b[..k]
    ensures k <= i < |b| && b[i].realm == a[k].realm
  {
    hide Lt, ChangeOf;
    assert ChangeOf(before, after, a[k].realm).Some?;
    i :| 0 <= i < |b| && b[i].realm == a[k].realm;
    if i < k {
      assert a[i] == a[..k][i] == b[..k][i] == b[i];
      assert Lt(a[i].realm, a[k].realm);
      LtIrreflexive(a[k].realm);
    }
  }

  lemma HeadNotLess(a: seq<RealmChange>, b: seq<RealmChange>, before: map<RealmId, Realm>, after: map<RealmId, Realm>, k: nat)
    requires Infers(a, before, after) && Infers(b, before, after) && k < |a| && k < |b| && a[..k] == b[..k]
    ensures !Lt(a[k].realm, b[k].realm)
    ensures a[k].realm == b[k].realm ==> a[k] == b[k]
  {
    hide Lt;
    var i := FoundLater(a, b, before, after, k);
    if k < i {
      assert Lt(b[k].realm, b[i].realm);
    }
    LtAsymmetric(b[k].realm, b[i].realm);
    LtIrreflexive(b[k].realm);
  }

  lemma NotListedLater(a: seq<RealmChange>, b: seq<RealmChange>, before: map<RealmId, Realm>, after: map<RealmId, Realm>, k: nat)
    requires Infers(a, before, after) && Infers(b, before, after) && k == |b| <= |a| && a[..k] == b[..k]
    ensures k == |a|
  {
    if k < |a| {
      var i := FoundLater(a, b, before, after, k);
    }
  }

  // ----- the declared order

  /** No later realm id is before an earlier one in the order of `localeCompare`. */
  predicate InLocaleOrder(less: (Key, Key) -> bool, changes: seq<RealmChange>) {
    forall i | 0 < i < |changes| :: !less(changes[i].realm, changes[i - 1].realm)
  }

  /** The sort gives a list in locale order. */
  lemma {:induction false} SortGivesOrder(less: (Key, Key) -> bool, changes: seq<RealmChange>)
    requires Asymmetric(less)
    ensures InLocaleOrder(less, SortDeclared(less, changes))
    decreases |changes|
  {
    if changes != [] {
      SortGivesOrder(less, changes[..|changes| - 1]);
      InsertGivesOrder(less, SortDeclared(less, changes[..|changes| - 1]), changes[|changes| - 1]);
    }
  }

  ghost predicate Asymmetric(less: (Key, Key) -> bool) { forall a: Key, b: Key :: less(a, b) ==> !less(b, a) }

  lemma {:induction false} InsertGivesOrder(less: (Key, Key) -> bool, sorted: seq<RealmChange>, c: RealmChange)
    requires Asymmetric(less) && InLocaleOrder(less, sorted)
    ensures var r := InsertDeclared(less, sorted, c);
      InLocaleOrder(less, r) && r != [] && (r[|r| - 1] == c || (sorted != [] && r[|r| - 1] == sorted[|sorted| - 1]))
    decreases |sorted|
  {
    if sorted != [] && less(c.realm, sorted[|sorted| - 1].realm) {
      var n := |sorted| - 1;
      assert InLocaleOrder(less, sorted[..n]) by { FrontInOrder(less, sorted); }
      InsertGivesOrder(less, sorted[..n], c);
      OrderSnoc(less, InsertDeclared(less, sorted[..n], c), sorted[n]);
    } else {
      OrderSnoc(less, sorted, c);
    }
  }

  lemma FrontInOrder(less: (Key, Key) -> bool, changes: seq<RealmChange>)
    requires InLocaleOrder(less, changes) && changes != []
    ensures InLocaleOrder(less, changes[..|changes| - 1])
  {
    var front := changes[..|changes| - 1];
    forall i | 0 < i < |front| ensures !less(front[i].realm, front[i - 1].realm) {
      assert front[i] == changes[i] && front[i - 1] == changes[i - 1];
    }
  }

  lemma OrderSnoc(less: (Key, Key) -> bool, changes: seq<RealmChange>, c: RealmChange)
    requires InLocaleOrder(less, changes) && (changes != [] ==> !less(c.realm, changes[|changes| - 1].realm))
    ensures InLocaleOrder(less, changes + [c])
  {
  }

  /**
   The declaration check sorts the declared changes by `localeCompare` and compares them with changes listed in code unit order.
   A correct declaration passes exactly when the two orders agree on the realms that changed.
   */
  lemma DeclarationPasses(less: (Key, Key) -> bool, changes: seq<RealmChange>)
    requires Asymmetric(less)
    ensures SortDeclared(less, changes) == changes <==> InLocaleOrder(less, changes)
  {
    SortGivesOrder(less, changes);
    if InLocaleOrder(less, changes) {
      InOrderIsKept(less, changes);
    }
  }

  lemma {:induction false} InOrderIsKept(less: (Key, Key) -> bool, changes: seq<RealmChange>)
    requires InLocaleOrder(less, changes)
    ensures SortDeclared(less, changes) == changes
    decreases |changes|
  {
    hide InLocaleOrder;
    if changes != [] {
      var n := |changes| - 1;
      FrontInOrder(less, changes);
      InOrderIsKept(less, changes[..n]);
      LastInOrder(less, changes);
      assert InsertDeclared(less, changes[..n], changes[n]) == changes[..n] + [changes[n]];
    }
  }

  lemma LastInOrder(less: (Key, Key) -> bool, changes: seq<RealmChange>)
    requires InLocaleOrder(less, changes)
    ensures |changes| > 1 ==> !less(changes[|changes| - 1].realm, changes[..|changes| - 1][|changes| - 2].realm)
  {
  }

  // ----- validating one transition

  /** `validatePigFsTransition`. */
  method Validate(t: Trust, parent: Option<Root>, r: Root, parentOffset: Option<nat>) returns (ok: bool)
    ensures ok == ValidTransition(t, parent, r, parentOffset)
  {
    hide WellFormed, GenesisOk, SortDeclared, ChangeAllowed, Infers;
    if !WellFormed(t, r) {
      return false;
    }
    if r.state.history.NoHistory? {
      return true;
    }
    if parent.None? {
      return GenesisOk(r);
    }
    var p, s := parent.value.state, r.state;
    if !p.history.Integrity? || !(p.identities <= s.identities) || s.generation != p.generation + 1
       || s.previousHash != Some(parent.value.commitHash) || (parentOffset.Some? && s.previousOffset != parentOffset) {
      return false;
    }
    if s.admins != p.admins && !RootAdmin(p, Actor(r)) {
      return false;
    }
    var changes := InferChanges(p.realms, s.realms);
    HasMutation(t, r);
    var declared := SortDeclared(t.localeLess, s.mutation.value.changes);
    if declared != changes {
      if Infers(declared, p.realms, s.realms) {
        InfersOnce(declared, changes, p.realms, s.realms);
      }
      return false;
    }
    var i := 0;
    while i < |changes|
      invariant i <= |changes| && forall k | 0 <= k < i :: ChangeAllowed(p, s.realms, Actor(r), changes[k])
    {
      if !ChangeAllowed(p, s.realms, Actor(r), changes[i]) {
        return false;
      }
      i := i + 1;
    }
    return true;
  }

  lemma HasMutation(t: Trust, r: Root)
    requires WellFormed(t, r) && r.state.history.Integrity?
    ensures r.state.mutation.Some?
  {
  }

  // ----- whole chains

  /** A commit and its offset in the arena. */
  datatype Link = Link(offset: nat, root: Root)

  type Commits = map<nat, Root>

  /** Link `i` is a valid successor of link `i - 1`. */
  ghost predicate ValidLink(t: Trust, links: seq<Link>, i: nat)
    requires i < |links|
  {
    links[i].root.state.history.Integrity?
    && ValidTransition(t, if i == 0 then None else Some(links[i - 1].root), links[i].root, if i == 0 then None else Some(links[i - 1].offset))
  }

  ghost predicate ValidChain(t: Trust, links: seq<Link>) { links != [] && forall i | 0 <= i < |links| :: ValidLink(t, links, i) }

  /** Following previous offsets from `latest` down passes exactly these links, to a commit without a predecessor. */
  predicate LinksTo(commits: Commits, links: seq<Link>, latest: nat) {
    links != [] && links[|links| - 1].offset == latest
    && (forall i | 0 <= i < |links| :: links[i].offset in commits && commits[links[i].offset] == links[i].root)
    && (forall i | 0 < i < |links| :: links[i].root.state.previousOffset == Some(links[i - 1].offset))
    && links[0].root.state.previousOffset == None
  }

  datatype History = NoCommit | Snapshot(root: Root) | Chain(links: seq<Link>) | Broken

  /** Generations count the commits. */
  lemma {:induction false} ChainGenerations(t: Trust, links: seq<Link>, i: nat)
    requires ValidChain(t, links) && i < |links|
    ensures links[i].root.state.generation == i + 1
  {
    hide WellFormed, Infers, SortDeclared, ChangeAllowed;
    assert ValidLink(t, links, i);
    if i > 0 {
      ChainGenerations(t, links, i - 1);
    }
  }

  /** The part of a chain that has been walked, and where the walk goes on. */
  ghost predicate Walking(links: seq<Link>, tail: seq<Link>, offset: Option<nat>) {
    |tail| <= |links| && tail == links[|links| - |tail|..]
    && offset == if |tail| == |links| then None else Some(links[|links| - |tail| - 1].offset)
  }

  lemma WalkNext(t: Trust, commits: Commits, latest: nat, links: seq<Link>, tail: seq<Link>, offset: nat)
    requires LinksTo(commits, links, latest) && ValidChain(t, links) && Walking(links, tail, Some(offset))
    ensures offset in commits && forall k | 0 <= k < |tail| :: tail[k].offset != offset
    ensures commits[offset].state.history.Integrity? && Walking(links, [Link(offset, commits[offset])] + tail, commits[offset].state.previousOffset)
  {
    hide ValidTransition;
    var m := |links| - |tail| - 1;
    assert ValidLink(t, links, m);
    ChainGenerations(t, links, m);
    forall k | 0 <= k < |tail| ensures tail[k].offset != offset {
      assert tail[k] == links[m + 1 + k];
      ChainGenerations(t, links, m + 1 + k);
    }
    assert [links[m]] + tail == links[m..];
  }

  lemma LastLink(t: Trust, commits: Commits, links: seq<Link>, head: nat)
    requires LinksTo(commits, links, head) && ValidChain(t, links)
    ensures head in commits && commits[head].state.history.Integrity? && Walking(links, [], Some(head))
  {
    hide ValidTransition;
    assert ValidLink(t, links, |links| - 1);
  }

  /** What the backward walk has collected: linked commits of the integrity kind, from somewhere up to the head. */
  ghost predicate Collected(commits: Commits, tail: seq<Link>, head: nat, offset: Option<nat>) {
    && (forall i | 0 <= i < |tail| :: tail[i].offset in commits && commits[tail[i].offset] == tail[i].root && tail[i].root.state.history.Integrity?)
    && (forall i | 0 < i < |tail| :: tail[i].root.state.previousOffset == Some(tail[i - 1].offset))
    && (if tail == [] then offset == Some(head) else tail[|tail| - 1].offset == head && tail[0].root.state.previousOffset == offset)
  }

  lemma CollectNext(commits: Commits, tail: seq<Link>, head: nat, offset: nat)
    requires Collected(commits, tail, head, Some(offset)) && offset in commits && commits[offset].state.history.Integrity?
    ensures Collected(commits, [Link(offset, commits[offset])] + tail, head, commits[offset].state.previousOffset)
  {
    var more := [Link(offset, commits[offset])] + tail;
    forall i | 0 < i < |more| ensures more[i].root.state.previousOffset == Some(more[i - 1].offset) {
      assert more[i] == tail[i - 1];
      if i > 1 {
        assert more[i - 1] == tail[i - 2];
      }
    }
  }

  lemma CollectEnd(commits: Commits, tail: seq<Link>, head: nat)
    requires Collected(commits, tail, head, None)
    ensures LinksTo(commits, tail, head)
  {
  }

  lemma WalkEnd(links: seq<Link>, tail: seq<Link>)
    requires Walking(links, tail, None)
    ensures tail == links
  {
    assert links[0..] == links;
  }

  /** The backward walk over previous offsets; an offset seen before is a loop. */
  method Collect(t: Trust, commits: Commits, head: nat) returns (r: Option<seq<Link>>)
    ensures r.Some? ==> LinksTo(commits, r.value, head) && Collected(commits, r.value, head, None)
    ensures forall links {:trigger LinksTo(commits, links, head)} :: LinksTo(commits, links, head) && ValidChain(t, links) ==> r == Some(links)
  {
    hide LinksTo, ValidChain, Walking, Collected;
    var tail: seq<Link> := [];
    var offset: Option<nat> := Some(head);
    var seen: set<nat> := {};
    assert Collected(commits, tail, head, offset) by { hide *; StartCollecting(commits, head); }
    forall links | LinksTo(commits, links, head) && ValidChain(t, links) ensures Walking(links, tail, offset) {
      LastLink(t, commits, links, head);
    }
    while offset.Some?
      invariant Collected(commits, tail, head, offset) && seen <= commits.Keys
      invariant forall o | o in seen :: exists k | 0 <= k < |tail| :: tail[k].offset == o
      invariant forall links | LinksTo(commits, links, head) && ValidChain(t, links) :: Walking(links, tail, offset)
      decreases commits.Keys - seen, offset.Some?
    {
      var o := offset.value;
      forall links | LinksTo(commits, links, head) && ValidChain(t, links)
        ensures o in commits && (forall k | 0 <= k < |tail| :: tail[k].offset != o) && commits[o].state.history.Integrity?
        ensures Walking(links, [Link(o, commits[o])] + tail, commits[o].state.previousOffset)
      {
        WalkNext(t, commits, head, links, tail, o);
      }
      if o in seen {
        return None;
      }
      if o !in commits || !commits[o].state.history.Integrity? {
        return None;
      }
      CollectNext(commits, tail, head, o);
      ghost var before := tail;
      tail := [Link(o, commits[o])] + tail;
      forall x | x in seen + {o} ensures exists k | 0 <= k < |tail| :: tail[k].offset == x {
        if x == o {
          assert tail[0].offset == x;
        } else {
          var k :| 0 <= k < |before| && before[k].offset == x;
          assert tail[k + 1].offset == x;
        }
      }
      seen := seen + {o};
      offset := commits[o].state.previousOffset;
    }
    CollectEnd(commits, tail, head);
    forall links | LinksTo(commits, links, head) && ValidChain(t, links) ensures tail == links {
      WalkEnd(links, tail);
    }
    return Some(tail);
  }

  lemma StartCollecting(commits: Commits, head: nat)
    ensures Collected(commits, [], head, Some(head))
  {
  }

  lemma CollectedMode(commits: Commits, links: seq<Link>, i: nat, head: nat)
    requires Collected(commits, links, head, None) && i < |links|
    ensures links[i].root.state.history.Integrity?
  {
  }

  lemma NotValid(t: Trust, links: seq<Link>, i: nat)
    requires i < |links| && !ValidLink(t, links, i)
    ensures !ValidChain(t, links)
  {
    hide ValidLink;
  }

  lemma AllValid(t: Trust, commits: Commits, links: seq<Link>, head: nat)
    requires LinksTo(commits, links, head) && forall k | 0 <= k < |links| :: ValidLink(t, links, k)
    ensures ValidChain(t, links)
  {
    hide ValidLink;
  }

  lemma SnapshotValid(t: Trust, r: Root)
    requires r.state.history.NoHistory?
    ensures ValidTransition(t, None, r, None) <==> WellFormed(t, r)
  {
    hide WellFormed;
  }

  /**
   `verifyPigFsHistory`: an integrity chain passes exactly when it links back to a genesis and every step is valid;
   the commits returned are then that chain.
   */
  method VerifyHistory(t: Trust, commits: Commits, latest: Option<nat>) returns (r: History)
    ensures latest.None? ==> r == NoCommit
    ensures r.Snapshot? ==> latest.Some? && latest.value in commits && r.root == commits[latest.value] && r.root.state.history.NoHistory? && WellFormed(t, r.root)
    ensures latest.Some? && latest.value in commits && commits[latest.value].state.history.NoHistory? && WellFormed(t, commits[latest.value]) ==> r.Snapshot?
    ensures r.Chain? ==> latest.Some? && LinksTo(commits, r.links, latest.value) && ValidChain(t, r.links)
    ensures latest.Some? ==> forall links {:trigger LinksTo(commits, links, latest.value)} ::
      LinksTo(commits, links, latest.value) && ValidChain(t, links) ==> r == Chain(links)
  {
    hide LinksTo, ValidChain, WellFormed, ValidTransition, Walking;
    if latest.None? {
      return NoCommit;
    }
    var head := latest.value;
    if head !in commits || commits[head].state.history.NoHistory? {
      forall links ensures !(LinksTo(commits, links, head) && ValidChain(t, links)) {
        if LinksTo(commits, links, head) && ValidChain(t, links) {
          LastLink(t, commits, links, head);
        }
      }
      if head !in commits {
        return Broken;
      }
      var ok := Validate(t, None, commits[head], None);
      SnapshotValid(t, commits[head]);
      return if ok then Snapshot(commits[head]) else Broken;
    }
    var tail := Collect(t, commits, head);
    if tail.None? {
      return Broken;
    }
    var links := tail.value;
    var i := 0;
    while i < |links|
      invariant i <= |links| && forall k | 0 <= k < i :: ValidLink(t, links, k)
    {
      CollectedMode(commits, links, i, head);
      var ok := Validate(t, if i == 0 then None else Some(links[i - 1].root), links[i].root, if i == 0 then None else Some(links[i - 1].offset));
      if !ok {
        NotValid(t, links, i);
        return Broken;
      }
      i := i + 1;
    }
    AllValid(t, commits, links, head);
    return Chain(links);
  }

  // ----- what every verified chain satisfies

  /** One step: every change to realms and root policy has the authority it needs, proved by a genuine signature on exactly this state. */
  lemma StepNeedsAuthority(t: Trust, links: seq<Link>, i: nat, realm: RealmId)
    requires ValidChain(t, links) && 0 < i < |links|
    ensures var p, s, actor := links[i - 1].root.state, links[i].root.state, Actor(links[i].root);
      (s.admins != p.admins ==> RootAdmin(p, actor))
      && ((realm in p.realms) != (realm in s.realms) ==> RootAdmin(p, actor))
      && (realm in p.realms && realm in s.realms && p.realms[realm].governance.Shared? ==>
        (PolicyOf(s.realms[realm]) != PolicyOf(p.realms[realm]) ==> RealmAdmin(p, p.realms[realm], actor))
        && (ContentOf(s.realms[realm]) != ContentOf(p.realms[realm]) ==> MayWrite(p.realms[realm], actor)))
      && (actor.Some? ==> t.genuine(links[i].root.authorization.value) && links[i].root.authorization.value.stateHash == t.stateHash(s))
  {
    hide RealmsOk, MayWrite, RealmAdmin, SortDeclared, PolicyOf, ContentOf, RootAdmin;
    assert ValidLink(t, links, i);
    var p, s := links[i - 1].root.state, links[i].root.state;
    if ChangeOf(p.realms, s.realms, realm).Some? {
      var changes := SortDeclared(t.localeLess, s.mutation.value.changes);
      var j :| 0 <= j < |changes| && changes[j].realm == realm;
      assert ChangeAllowed(p, s.realms, Actor(links[i].root), changes[j]);
    }
  }

  lemma {:induction false} IdentitiesGrow(t: Trust, links: seq<Link>, i: nat, j: nat)
    requires ValidChain(t, links) && i <= j < |links|
    ensures links[i].root.state.identities <= links[j].root.state.identities
  {
    hide WellFormed, Infers, SortDeclared, ChangeAllowed;
    if i < j {
      assert ValidLink(t, links, j);
      IdentitiesGrow(t, links, i, j - 1);
    }
  }

  /** No commit after `a`, up to `b`, was signed by a member of the coalition. */
  predicate Silent(links: seq<Link>, a: nat, b: nat, coalition: set<Identity>) {
    forall k | a < k <= b && k < |links| :: Actor(links[k].root).None? || Actor(links[k].root).value !in coalition
  }

  /** Everyone with authority over the policy of a shared realm. */
  predicate HoldsAuthority(s: State, realm: RealmId, coalition: set<Identity>) {
    realm in s.realms && s.realms[realm].governance.Shared? && s.admins <= coalition && s.realms[realm].access.admins <= coalition
  }

  /**
   Authority only comes from authority. As long as none of those who administer a shared realm at one point signs anything, its policy,
   its members, its key wraps and its administrators stay as they are, and so do the root admins. Hence every later administrator traces
   back, through a genuine signature, to an earlier one.
   */
  lemma {:induction false} AuthorityComesFromAuthority(t: Trust, links: seq<Link>, a: nat, b: nat, realm: RealmId, coalition: set<Identity>)
    requires ValidChain(t, links) && a <= b < |links| && HoldsAuthority(links[a].root.state, realm, coalition) && Silent(links, a, b, coalition)
    ensures var u, v := links[a].root.state, links[b].root.state;
      realm in v.realms && PolicyOf(v.realms[realm]) == PolicyOf(u.realms[realm]) && v.admins == u.admins
    decreases b
  {
    hide ValidChain;
    if a < b {
      AuthorityComesFromAuthority(t, links, a, b - 1, realm, coalition);
      StepNeedsAuthority(t, links, b, realm);
      assert Actor(links[b].root).None? || Actor(links[b].root).value !in coalition;
      assert links[b - 1].root.state.realms[realm].access == links[a].root.state.realms[realm].access;
    }
  }

  /** With member-only writing, contents too change only through a member of the coalition, if all writers belong to it. */
  lemma {:induction false} ContentComesFromWriters(t: Trust, links: seq<Link>, a: nat, b: nat, realm: RealmId, coalition: set<Identity>)
    requires ValidChain(t, links) && a <= b < |links| && HoldsAuthority(links[a].root.state, realm, coalition) && Silent(links, a, b, coalition)
    requires var r := links[a].root.state.realms[realm]; r.access.writeMode.MembersWrite? && r.access.writers <= coalition
    ensures realm in links[b].root.state.realms && ContentOf(links[b].root.state.realms[realm]) == ContentOf(links[a].root.state.realms[realm])
    decreases b
  {
    hide ValidChain;
    if a < b {
      ContentComesFromWriters(t, links, a, b - 1, realm, coalition);
      AuthorityComesFromAuthority(t, links, a, b - 1, realm, coalition);
      AuthorityComesFromAuthority(t, links, a, b, realm, coalition);
      StepNeedsAuthority(t, links, b, realm);
      assert Actor(links[b].root).None? || Actor(links[b].root).value !in coalition;
      assert links[b - 1].root.state.realms[realm].access == links[a].root.state.realms[realm].access;
    }
  }

  // ----- the last commit hash determines the whole history

  lemma LinkHashes(t: Trust, links: seq<Link>, i: nat)
    requires ValidChain(t, links) && i < |links|
    ensures var r := links[i].root;
      r.stateHash == t.stateHash(r.state) && r.commitHash == t.commitHash(r.stateHash, r.authorization)
      && r.state.previousHash == if i == 0 then None else Some(links[i - 1].root.commitHash)
  {
    hide RealmsOk, Infers, SortDeclared, ChangeAllowed;
    assert ValidLink(t, links, i);
  }

  lemma SameHashSameRoot(t: Trust, a: seq<Link>, b: seq<Link>, i: nat, j: nat)
    requires Ideal(t) && ValidChain(t, a) && ValidChain(t, b) && i < |a| && j < |b| && a[i].root.commitHash == b[j].root.commitHash
    ensures a[i].root == b[j].root && i == j
  {
    hide ValidChain;
    LinkHashes(t, a, i);
    LinkHashes(t, b, j);
    ChainGenerations(t, a, i);
    ChainGenerations(t, b, j);
  }

  /** Two verified histories that agree in one commit hash agree in every commit before it. */
  lemma {:induction false} SameHashSameHistory(t: Trust, a: seq<Link>, b: seq<Link>, i: nat, k: nat)
    requires Ideal(t) && ValidChain(t, a) && ValidChain(t, b) && i < |a| && i < |b| && k <= i
    requires a[i].root.commitHash == b[i].root.commitHash
    ensures a[k].root == b[k].root
    decreases i
  {
    hide ValidChain;
    SameHashSameRoot(t, a, b, i, i);
    LinkHashes(t, a, i);
    LinkHashes(t, b, i);
    if k < i {
      SameHashSameHistory(t, a, b, i - 1, k);
    }
  }

  datatype Relation = Same(common: nat) | Behind(common: nat, aheadBy: nat) | Ahead(common: nat, aheadBy: nat) | Fork(common: nat, left: nat, right: nat)

  /**
   `comparePigFsHistories` on two verified chains: the common part is equal commit by commit, and beyond it no commit of one
   occurs anywhere in the other.
   */
  method CompareHistories(t: Trust, a: seq<Link>, b: seq<Link>) returns (r: Relation)
    requires Ideal(t) && ValidChain(t, a) && ValidChain(t, b)
    ensures r.common <= |a| && r.common <= |b| && forall k | 0 <= k < r.common :: a[k].root == b[k].root
    ensures forall i, j | r.common <= i < |a| && 0 <= j < |b| :: a[i].root.commitHash != b[j].root.commitHash
    ensures r == if r.common == |a| == |b| then Same(r.common) else if r.common == |a| then Behind(r.common, |b| - r.common)
      else if r.common == |b| then Ahead(r.common, |a| - r.common) else Fork(r.common, |a| - r.common, |b| - r.common)
  {
    hide ValidChain, Ideal;
    var common := 0;
    while common < |a| && common < |b| && a[common].root.commitHash == b[common].root.commitHash
      invariant common <= |a| && common <= |b| && forall k | 0 <= k < common :: a[k].root == b[k].root
    {
      SameHashSameRoot(t, a, b, common, common);
      common := common + 1;
    }
    forall i, j | common <= i < |a| && 0 <= j < |b| ensures a[i].root.commitHash != b[j].root.commitHash {
      if a[i].root.commitHash == b[j].root.commitHash {
        SameHashSameRoot(t, a, b, i, j);
        SameHashSameHistory(t, a, b, i, common);
      }
    }
    if common == |a| && common == |b| {
      return Same(common);
    }
    if common == |a| {
      return Behind(common, |b| - common);
    }
    if common == |b| {
      return Ahead(common, |a| - common);
    }
    return Fork(common, |a| - common, |b| - common);
  }

  // ----- the same chain on another machine

  function Declared(r: Root): seq<RealmChange> { if r.state.mutation.None? then [] else r.state.mutation.value.changes }

  /** Every commit declares its changes as they are inferred: in code unit order. */
  ghost predicate Declares(links: seq<Link>) {
    forall i | 0 < i < |links| :: Infers(Declared(links[i].root), links[i - 1].root.state.realms, links[i].root.state.realms)
  }

  /** No commit behind the first one changed more than one realm. */
  predicate Narrow(links: seq<Link>) { forall i | 0 < i < |links| :: |Declared(links[i].root)| <= 1 }

  /** Hashes and signatures are the same everywhere, the order of the locale is not. */
  function Elsewhere(t: Trust, less: (Key, Key) -> bool): Trust { t.(localeLess := less) }

  lemma WellFormedElsewhere(t: Trust, less: (Key, Key) -> bool, r: Root)
    ensures WellFormed(Elsewhere(t, less), r) <==> WellFormed(t, r)
  {
    hide RealmsOk, NeedsIntegrity;
  }

  /** A step that passes here passes there exactly if the realms that it changed are in order there. */
  lemma LinkElsewhere(t: Trust, less: (Key, Key) -> bool, links: seq<Link>, i: nat)
    requires Asymmetric(less) && i < |links| && ValidLink(t, links, i) && Declares(links)
    ensures ValidLink(Elsewhere(t, less), links, i) <==> i == 0 || InLocaleOrder(less, Declared(links[i].root))
  {
    hide WellFormed, Infers, SortDeclared, ChangeAllowed, InLocaleOrder, Asymmetric;
    WellFormedElsewhere(t, less, links[i].root);
    if i > 0 {
      var declared, before, after := Declared(links[i].root), links[i - 1].root.state.realms, links[i].root.state.realms;
      assert Infers(declared, before, after);
      InfersOnce(SortDeclared(t.localeLess, declared), declared, before, after);
      DeclarationPasses(less, declared);
      if Infers(SortDeclared(less, declared), before, after) {
        InfersOnce(SortDeclared(less, declared), declared, before, after);
      }
    }
  }

  /**
   A verified chain verifies on another machine exactly if its locale orders the realms that each commit changed as code units do.
   It always does when no commit changed more than one.
   */
  lemma ChainElsewhere(t: Trust, less: (Key, Key) -> bool, links: seq<Link>)
    requires Asymmetric(less) && ValidChain(t, links) && Declares(links)
    ensures ValidChain(Elsewhere(t, less), links) <==> forall i | 0 < i < |links| :: InLocaleOrder(less, Declared(links[i].root))
    ensures Narrow(links) ==> ValidChain(Elsewhere(t, less), links)
  {
    hide ValidLink, Declares, Asymmetric;
    forall i | 0 <= i < |links| ensures ValidLink(Elsewhere(t, less), links, i) <==> i == 0 || InLocaleOrder(less, Declared(links[i].root)) {
      LinkElsewhere(t, less, links, i);
    }
  }

  lemma DeclaresSnoc(links: seq<Link>, next: Link)
    requires Declares(links) && (links != [] ==> Infers(Declared(next.root), links[|links| - 1].root.state.realms, next.root.state.realms))
    ensures Declares(links + [next])
    ensures Narrow(links) && |Declared(next.root)| <= 1 ==> Narrow(links + [next])
  {
    hide Infers;
    var more := links + [next];
    forall i | 0 < i < |more| ensures Infers(Declared(more[i].root), more[i - 1].root.state.realms, more[i].root.state.realms) {
      if i < |links| {
        assert more[i - 1] == links[i - 1] && more[i] == links[i];
      } else {
        assert more[i - 1] == links[|links| - 1];
      }
    }
  }

  // ----- extending a chain

  /** A valid successor of the head, put at a new offset, gives a longer verified chain. */
  lemma ChainExtends(t: Trust, commits: Commits, links: seq<Link>, head: nat, r: Root, offset: nat)
    requires LinksTo(commits, links, head) && ValidChain(t, links) && offset !in commits
    requires r.state.history.Integrity? && r.state.previousOffset == Some(head)
    requires ValidTransition(t, Some(links[|links| - 1].root), r, Some(head))
    ensures LinksTo(commits[offset := r], links + [Link(offset, r)], offset) && ValidChain(t, links + [Link(offset, r)])
  {
    hide ValidTransition;
    var more := links + [Link(offset, r)];
    forall i | 0 <= i < |more| ensures ValidLink(t, more, i) {
      if i < |links| {
        assert ValidLink(t, links, i);
        assert i > 0 ==> more[i - 1] == links[i - 1];
      }
    }
  }

  lemma ChainStarts(t: Trust, r: Root, offset: nat, commits: Commits)
    requires r.state.history.Integrity? && ValidTransition(t, None, r, None)
    ensures LinksTo(commits[offset := r], [Link(offset, r)], offset) && ValidChain(t, [Link(offset, r)])
  {
    hide WellFormed;
    assert ValidLink(t, [Link(offset, r)], 0);
  }
}
