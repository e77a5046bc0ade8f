// The signal receivers that keep the cached API-key rows in step with the
// database when operations do not overlap (apps/api_keys/signals.py), with
// revoke_api_key and verify_token of apps/api_keys/services.py. Each worker has
// its own cache, and a receiver reaches the cache of the worker it runs in; a
// cache that all workers share is the case of a single worker.
module KeySignals {
  import opened Wrappers
  import ApiKeys

  datatype KeyRow = KeyRow(lookup: string, tokenHash: string, permissions: set<string>, expiresAt: Option<int>,
                           revokedAt: Option<int>, issuer: Option<nat>)

  /** What verify_token caches: the row and its prefetched allowlist. */
  datatype Cached = Cached(row: KeyRow, accounts: set<nat>)

  type Cache = map<string, Cached>

  datatype World = World(keys: map<nat, KeyRow>, links: set<(nat, nat)>, caches: map<nat, Cache>)

  function CacheOf(caches: map<nat, Cache>, worker: nat): Cache {
    if worker in caches then caches[worker] else map[]
  }

  function AccountsOf(links: set<(nat, nat)>, key: nat): set<nat> {
    set l | l in links && l.0 == key :: l.1
  }

  function KeysOf(links: set<(nat, nat)>, account: nat): set<nat> {
    set l | l in links && l.1 == account :: l.0
  }

  function WithoutKey(links: set<(nat, nat)>, key: nat): set<(nat, nat)> {
    set l | l in links && l.0 != key
  }

  function WithoutAccount(links: set<(nat, nat)>, account: nat): set<(nat, nat)> {
    set l | l in links && l.1 != account
  }

  function View(w: World, key: nat): Cached
    requires key in w.keys
  {
    Cached(w.keys[key], AccountsOf(w.links, key))
  }

  ghost predicate DistinctLookups(keys: map<nat, KeyRow>) {
    forall j, k :: j in keys && k in keys && j != k ==> keys[j].lookup != keys[k].lookup
  }

  /** Every entry a worker caches belongs to some key and is what the database says about it. */
  ghost predicate Coherent(w: World, worker: nat) {
    && DistinctLookups(w.keys)
    && (forall l :: l in CacheOf(w.caches, worker) ==> exists k :: k in w.keys && w.keys[k].lookup == l)
    && (forall k :: k in w.keys && w.keys[k].lookup in CacheOf(w.caches, worker) ==>
          CacheOf(w.caches, worker)[w.keys[k].lookup] == View(w, k))
  }

  /** Sequential operations: the relation edited from either side, saves, cache fills and expiries. */
  datatype Op =
    | Add(key: nat, accounts: set<nat>)
    | Remove(key: nat, accounts: set<nat>)
    | Clear(key: nat)
    | ReverseAdd(account: nat, keys: set<nat>)
    | ReverseRemove(account: nat, keys: set<nat>)
    | ReverseClear(account: nat)
    | Save(key: nat, row: KeyRow)
    | Fill(key: nat)
    | Expire(lookup: string)

  /** Saving may create a key with a new lookup, or change any column of an existing one but its lookup. */
  predicate Allowed(w: World, op: Op) {
    match op
    case Add(key, _) => key in w.keys
    case Remove(key, _) => key in w.keys
    case Clear(key) => key in w.keys
    case ReverseAdd(_, keys) => keys <= w.keys.Keys
    case Save(key, row) =>
      if key in w.keys then row.lookup == w.keys[key].lookup
      else forall k :: k in w.keys ==> w.keys[k].lookup != row.lookup
    case Fill(key) => key in w.keys
    case _ => true
  }

  function LookupsOf(keys: map<nat, KeyRow>, ids: set<nat>): set<string> {
    set k | k in keys && k in ids :: keys[k].lookup
  }

  function Invalidated(w: World, worker: nat, ids: set<nat>): World {
    w.(caches := w.caches[worker := CacheOf(w.caches, worker) - LookupsOf(w.keys, ids)])
  }

  /** The operation, performed in one worker. */
  function Apply(w: World, worker: nat, op: Op): World
    requires Allowed(w, op)
  {
    match op
    case Add(key, accounts) => Invalidated(w.(links := w.links + (set a | a in accounts :: (key, a))), worker, {key})
    case Remove(key, accounts) => Invalidated(w.(links := w.links - (set a | a in accounts :: (key, a))), worker, {key})
    case Clear(key) => Invalidated(w.(links := WithoutKey(w.links, key)), worker, {key})
    case ReverseAdd(account, keys) =>
      Invalidated(w.(links := w.links + (set k | k in keys :: (k, account))), worker, keys - KeysOf(w.links, account))
    case ReverseRemove(account, keys) =>
      Invalidated(w.(links := w.links - (set k | k in keys :: (k, account))), worker, keys)
    case ReverseClear(account) =>
      Invalidated(w.(links := WithoutAccount(w.links, account)), worker, KeysOf(w.links, account))
    case Save(key, row) => Invalidated(w.(keys := w.keys[key := row]), worker, {key})
    case Fill(key) =>
      w.(caches := w.caches[worker := CacheOf(w.caches, worker)[w.keys[key].lookup := View(w, key)]])
    case Expire(lookup) => w.(caches := w.caches[worker := CacheOf(w.caches, worker) - {lookup}])
  }

  // ---------------------------------------------------------------------
  // The receivers
  // ---------------------------------------------------------------------

  lemma KeepsCoherent(w: World, worker: nat, op: Op)
    requires Allowed(w, op)
    ensures Coherent(w, worker) ==> Coherent(Apply(w, worker, op), worker)
  {
    if Coherent(w, worker) {
      OpKeepsCoherent(w, worker, op);
    }
  }

  class KeyRegistry {
    var keys: map<nat, KeyRow>
    var links: set<(nat, nat)>
    var caches: map<nat, Cache>
    var stash: map<nat, set<nat>>  // the pre_clear snapshot attribute, per account instance

    ghost function Model(): World
      reads this
    {
      World(keys, links, caches)
    }

    constructor ()
      ensures Model() == World(map[], {}, map[]) && stash == map[]
      ensures forall worker :: Coherent(Model(), worker)
    {
      keys, links, caches, stash := map[], {}, map[], map[];
    }

    method Invalidate(worker: nat, key: nat)
      modifies this`caches
      ensures Model() == Invalidated(old(Model()), worker, {key})
    {
      var cache := CacheOf(caches, worker);
      if key in keys {
        cache := cache - {keys[key].lookup};
      }
      assert CacheOf(caches, worker) - {} == CacheOf(caches, worker);
      caches := caches[worker := cache];
      assert LookupsOf(keys, {key}) == if key in keys then {keys[key].lookup} else {};
    }

    method InvalidateAll(worker: nat, ids: set<nat>)
      modifies this`caches
      ensures Model() == Invalidated(old(Model()), worker, ids)
    {
      var cache := CacheOf(caches, worker);
      var todo := ids;
      while todo != {}
        invariant todo <= ids
        invariant cache == CacheOf(caches, worker) - LookupsOf(keys, ids - todo)
        decreases todo
      {
        var id :| id in todo;
        todo := todo - {id};
        if id in keys {
          cache := cache - {keys[id].lookup};
        }
        assert LookupsOf(keys, ids - todo) == LookupsOf(keys, ids - todo - {id}) + LookupsOf(keys, {id});
        assert LookupsOf(keys, {id}) == if id in keys then {keys[id].lookup} else {};
      }
      assert ids - {} == ids;
      caches := caches[worker := cache];
    }

    method AddAccounts(worker: nat, key: nat, accounts: set<nat>)
      requires Allowed(Model(), Add(key, accounts))
      modifies this
      ensures Model() == Apply(old(Model()), worker, Add(key, accounts)) && stash == old(stash)
      ensures old(Coherent(Model(), worker)) ==> Coherent(Model(), worker)
    {
      KeepsCoherent(Model(), worker, Add(key, accounts));
      links := links + set a | a in accounts :: (key, a);
      Invalidate(worker, key);
    }

    method RemoveAccounts(worker: nat, key: nat, accounts: set<nat>)
      requires Allowed(Model(), Remove(key, accounts))
      modifies this
      ensures Model() == Apply(old(Model()), worker, Remove(key, accounts)) && stash == old(stash)
      ensures old(Coherent(Model(), worker)) ==> Coherent(Model(), worker)
    {
      KeepsCoherent(Model(), worker, Remove(key, accounts));
      links := links - set a | a in accounts :: (key, a);
      Invalidate(worker, key);
    }

    method ClearAccounts(worker: nat, key: nat)
      requires Allowed(Model(), Clear(key))
      modifies this
      ensures Model() == Apply(old(Model()), worker, Clear(key)) && stash == old(stash)
      ensures old(Coherent(Model(), worker)) ==> Coherent(Model(), worker)
    {
      KeepsCoherent(Model(), worker, Clear(key));
      links := WithoutKey(links, key);
      Invalidate(worker, key);
    }

    /** From the account side the ids come from pk_set; after an add that holds only the newly linked keys. */
    method AddKeys(worker: nat, account: nat, ids: set<nat>)
      requires Allowed(Model(), ReverseAdd(account, ids))
      modifies this
      ensures Model() == Apply(old(Model()), worker, ReverseAdd(account, ids)) && stash == old(stash)
      ensures old(Coherent(Model(), worker)) ==> Coherent(Model(), worker)
    {
      KeepsCoherent(Model(), worker, ReverseAdd(account, ids));
      var added := ids - KeysOf(links, account);
      links := links + set k | k in ids :: (k, account);
      InvalidateAll(worker, added);
    }

    method RemoveKeys(worker: nat, account: nat, ids: set<nat>)
      modifies this
      ensures Model() == Apply(old(Model()), worker, ReverseRemove(account, ids)) && stash == old(stash)
      ensures old(Coherent(Model(), worker)) ==> Coherent(Model(), worker)
    {
      KeepsCoherent(Model(), worker, ReverseRemove(account, ids));
      links := links - set k | k in ids :: (k, account);
      InvalidateAll(worker, ids);
    }

    method OnPreClear(account: nat)
      modifies this`stash
      ensures account in stash && forall k :: k in stash[account] <==> (k, account) in links
      ensures forall a :: a != account ==> (a in stash <==> a in old(stash))
      ensures forall a :: a != account && a in stash ==> stash[a] == old(stash)[a]
    {
      stash := stash[account := KeysOf(links, account)];
    }

    method OnPostClear(worker: nat, account: nat)
      modifies this`caches, this`stash
      ensures Model() == Invalidated(old(Model()), worker, if account in old(stash) then old(stash)[account] else {})
      ensures stash == old(stash) - {account}
    {
      var ids := if account in stash then stash[account] else {};
      stash := stash - {account};
      InvalidateAll(worker, ids);
    }

    /** account.api_keys.clear(): after the delete, only the stash still knows the affected keys. */
    method ClearKeys(worker: nat, account: nat)
      modifies this
      ensures Model() == Apply(old(Model()), worker, ReverseClear(account)) && stash == old(stash) - {account}
      ensures old(Coherent(Model(), worker)) ==> Coherent(Model(), worker)
    {
      KeepsCoherent(Model(), worker, ReverseClear(account));
      OnPreClear(account);
      assert stash[account] == KeysOf(links, account);
      links := WithoutAccount(links, account);
      OnPostClear(worker, account);
    }

    method SaveKey(worker: nat, key: nat, row: KeyRow)
      requires Allowed(Model(), Save(key, row))
      modifies this
      ensures Model() == Apply(old(Model()), worker, Save(key, row)) && stash == old(stash)
      ensures old(Coherent(Model(), worker)) ==> Coherent(Model(), worker)
    {
      KeepsCoherent(Model(), worker, Save(key, row));
      keys := keys[key := row];
      Invalidate(worker, key);
    }

    /** Stamps the revocation once and invalidates in any case, in this worker. */
    method Revoke(worker: nat, key: nat, now: int)
      requires key in keys
      modifies this
      ensures keys == if old(keys)[key].revokedAt.None? then old(keys)[key := old(keys)[key].(revokedAt := Some(now))]
                      else old(keys)
      ensures links == old(links) && stash == old(stash)
      ensures keys[key].revokedAt.Some? && keys[key].lookup !in CacheOf(caches, worker)
      ensures CacheOf(caches, worker) == CacheOf(old(caches), worker) - {keys[key].lookup}
      ensures forall other :: other != worker ==> CacheOf(caches, other) == CacheOf(old(caches), other)
    {
      if keys[key].revokedAt.None? {
        SaveKey(worker, key, keys[key].(revokedAt := Some(now)));
      }
      Invalidate(worker, key);
      assert key in keys && LookupsOf(keys, {key}) == {keys[key].lookup};
    }

    /** The row as verify_token gets it: cached, or from the database and then cached if active. */
    method Load(worker: nat, lookup: string, now: int) returns (found: Option<Cached>)
      requires Coherent(Model(), worker)
      modifies this`caches
      ensures Coherent(Model(), worker) && keys == old(keys) && links == old(links)
      ensures forall other :: other != worker ==> CacheOf(caches, other) == CacheOf(old(caches), other)
      ensures found.None? ==> forall k :: k in keys ==> keys[k].lookup != lookup
      ensures found.Some? ==> exists k :: k in keys && keys[k].lookup == lookup && found.value == View(Model(), k)
      ensures forall l :: l != lookup ==> (l in CacheOf(caches, worker) <==> l in CacheOf(old(caches), worker))
      ensures lookup in CacheOf(caches, worker) <==>
              lookup in CacheOf(old(caches), worker) || (found.Some? && IsActive(found.value.row, now))
    {
      var cache := CacheOf(caches, worker);
      if lookup in cache {
        return Some(cache[lookup]);
      }
      var hit := FindKey(lookup);
      if hit.None? {
        return None;
      }
      found := Some(Cached(keys[hit.value], AccountsOf(links, hit.value)));
      if IsActive(found.value.row, now) {
        ghost var before := Model();
        caches := caches[worker := cache[lookup := found.value]];
        assert Model() == Apply(before, worker, Fill(hit.value));
        OpKeepsCoherent(before, worker, Fill(hit.value));
      }
    }

    method Drop(worker: nat, lookup: string)
      modifies this`caches
      ensures CacheOf(caches, worker) == CacheOf(old(caches), worker) - {lookup}
      ensures forall other :: other != worker ==> CacheOf(caches, other) == CacheOf(old(caches), other)
      ensures old(Coherent(Model(), worker)) ==> Coherent(Model(), worker)
    {
      caches := caches[worker := CacheOf(caches, worker) - {lookup}];
    }

    /** A verification that nothing interrupts, for a parsed token, in a worker whose cache is coherent. */
    method Verify(worker: nat, lookup: string, hash: string, now: int, members: set<nat>) returns (r: Option<Cached>)
      requires Coherent(Model(), worker)
      modifies this`caches
      ensures Coherent(Model(), worker) && keys == old(keys) && links == old(links)
      ensures forall other :: other != worker ==> CacheOf(caches, other) == CacheOf(old(caches), other)
      ensures r.Some? <==>
              exists k :: k in keys && keys[k].lookup == lookup
                          && keys[k].revokedAt.None? && (keys[k].expiresAt.None? || keys[k].expiresAt.value > now)
                          && keys[k].tokenHash == hash
                          && keys[k].issuer.Some? && keys[k].issuer.value in members
      ensures r.Some? ==> exists k :: k in keys && keys[k].lookup == lookup && r.value == View(Model(), k)
      ensures forall l :: l != lookup ==> (l in CacheOf(caches, worker) <==> l in CacheOf(old(caches), worker))
      ensures lookup in CacheOf(caches, worker) <==>
              exists k :: k in keys && keys[k].lookup == lookup
                          && keys[k].revokedAt.None? && (keys[k].expiresAt.None? || keys[k].expiresAt.value > now)
                          && (keys[k].tokenHash == hash ==>
                                keys[k].issuer.Some? && keys[k].issuer.value in members)
    {
      var found := Load(worker, lookup, now);
      if found.None? {
        return None;
      }
      var row := found.value.row;
      ghost var key :| key in keys && keys[key].lookup == lookup && found.value == View(Model(), key);
      if !IsActive(row, now) {
        Drop(worker, lookup);
        return None;
      }
      if hash != row.tokenHash {
        return None;
      }
      if row.issuer.None? || row.issuer.value !in members {
        Drop(worker, lookup);
        return None;
      }
      r := found;
    }

    method FindKey(lookup: string) returns (r: Option<nat>)
      ensures r.Some? ==> r.value in keys && keys[r.value].lookup == lookup
      ensures r.None? ==> forall k :: k in keys ==> keys[k].lookup != lookup
    {
      if k :| k in keys && keys[k].lookup == lookup {
        r := Some(k);
      } else {
        r := None;
      }
    }
  }

  predicate IsActive(row: KeyRow, now: int) {
    ApiKeys.IsActive(row.revokedAt.Some?, row.expiresAt, now)
  }

  // ---------------------------------------------------------------------
  // What each operation changes
  // ---------------------------------------------------------------------

  /** The pairs and rows after an operation. */
  lemma OpWrites(w: World, worker: nat, op: Op, k: nat, a: nat)
    requires Allowed(w, op)
    ensures (k, a) in Apply(w, worker, op).links <==>
            match op
            case Add(key, accounts) => (k, a) in w.links || (k == key && a in accounts)
            case Remove(key, accounts) => (k, a) in w.links && !(k == key && a in accounts)
            case Clear(key) => (k, a) in w.links && k != key
            case ReverseAdd(account, keys) => (k, a) in w.links || (a == account && k in keys)
            case ReverseRemove(account, keys) => (k, a) in w.links && !(a == account && k in keys)
            case ReverseClear(account) => (k, a) in w.links && a != account
            case _ => (k, a) in w.links
    ensures Apply(w, worker, op).keys == if op.Save? then w.keys[op.key := op.row] else w.keys
  {
  }

  /** Which entries an operation drops, in which worker: those of the edited keys, of an add the newly linked ones. */
  lemma OpDrops(w: World, worker: nat, op: Op, other: nat, l: string)
    requires Allowed(w, op) && !op.Fill?
    ensures l in CacheOf(Apply(w, worker, op).caches, other) <==>
            && l in CacheOf(w.caches, other)
            && (other == worker ==>
                  match op
                  case ReverseAdd(account, keys) =>
                    forall k :: k in keys && (k, account) !in w.links ==> w.keys[k].lookup != l
                  case ReverseRemove(_, keys) => forall k :: k in keys && k in w.keys ==> w.keys[k].lookup != l
                  case ReverseClear(account) =>
                    forall k :: k in w.keys && (k, account) in w.links ==> w.keys[k].lookup != l
                  case Expire(lookup) => l != lookup
                  case Save(_, row) => l != row.lookup
                  case Add(key, _) => l != w.keys[key].lookup
                  case Remove(key, _) => l != w.keys[key].lookup
                  case Clear(key) => l != w.keys[key].lookup
                  case Fill(_) => true)
    ensures l in CacheOf(Apply(w, worker, op).caches, other) ==>
              CacheOf(Apply(w, worker, op).caches, other)[l] == CacheOf(w.caches, other)[l]
  {
  }

  // ---------------------------------------------------------------------
  // The cache of the worker that ran the receivers
  // ---------------------------------------------------------------------

  lemma CoherentWhenOthersKeepTheirAccounts(w: World, worker: nat, links: set<(nat, nat)>, ids: set<nat>)
    requires Coherent(w, worker)
    requires forall k :: k in w.keys && k !in ids ==> AccountsOf(links, k) == AccountsOf(w.links, k)
    ensures Coherent(Invalidated(w.(links := links), worker, ids), worker)
  {
    var t := Invalidated(w.(links := links), worker, ids);
    assert forall k :: k in w.keys && k in ids ==> w.keys[k].lookup in LookupsOf(w.keys, ids);
    assert CacheOf(t.caches, worker) == CacheOf(w.caches, worker) - LookupsOf(w.keys, ids);
  }

  lemma OpKeepsCoherent(w: World, worker: nat, op: Op)
    requires Coherent(w, worker) && Allowed(w, op)
    ensures Coherent(Apply(w, worker, op), worker)
  {
    match op
    case Add(key, accounts) =>
      CoherentWhenOthersKeepTheirAccounts(w, worker, w.links + (set a | a in accounts :: (key, a)), {key});
    case Remove(key, accounts) =>
      CoherentWhenOthersKeepTheirAccounts(w, worker, w.links - (set a | a in accounts :: (key, a)), {key});
    case Clear(key) =>
      CoherentWhenOthersKeepTheirAccounts(w, worker, WithoutKey(w.links, key), {key});
    case ReverseAdd(account, keys) =>
      AlreadyLinkedKeepTheirAccounts(w, account, keys);
      var links := w.links + (set k | k in keys :: (k, account));
      CoherentWhenOthersKeepTheirAccounts(w, worker, links, keys - KeysOf(w.links, account));
    case ReverseRemove(account, keys) =>
      CoherentWhenOthersKeepTheirAccounts(w, worker, w.links - (set k | k in keys :: (k, account)), keys);
    case ReverseClear(account) =>
      ReverseClearTouchesOnlyLinkedKeys(w, account);
      CoherentWhenOthersKeepTheirAccounts(w, worker, WithoutAccount(w.links, account), KeysOf(w.links, account));
    case Save(key, row) => SaveKeepsCoherent(w, worker, key, row);
    case Fill(key) =>
    case Expire(_) =>
  }

  lemma AlreadyLinkedKeepTheirAccounts(w: World, account: nat, keys: set<nat>)
    ensures var links := w.links + (set k | k in keys :: (k, account));
            forall k :: k !in keys - KeysOf(w.links, account) ==> AccountsOf(links, k) == AccountsOf(w.links, k)
  {
    var links := w.links + (set k | k in keys :: (k, account));
    forall k | k !in keys - KeysOf(w.links, account) ensures AccountsOf(links, k) == AccountsOf(w.links, k) {
      forall a | a in AccountsOf(links, k) ensures (k, a) in w.links {
        if k in KeysOf(w.links, account) {
          assert (k, account) in w.links;
        }
      }
      forall a | a in AccountsOf(w.links, k) ensures (k, a) in links {
      }
    }
  }

  lemma ReverseClearTouchesOnlyLinkedKeys(w: World, account: nat)
    ensures forall k :: k !in KeysOf(w.links, account) ==>
              AccountsOf(WithoutAccount(w.links, account), k) == AccountsOf(w.links, k)
  {
    forall k | k !in KeysOf(w.links, account)
      ensures AccountsOf(WithoutAccount(w.links, account), k) == AccountsOf(w.links, k)
    {
      forall a | a in AccountsOf(w.links, k) ensures a != account && (k, a) in w.links {
        assert (k, a) in w.links;
      }
    }
  }

  lemma SaveKeepsCoherent(w: World, worker: nat, key: nat, row: KeyRow)
    requires Coherent(w, worker) && Allowed(w, Save(key, row))
    ensures Coherent(Apply(w, worker, Save(key, row)), worker)
  {
    var t := Apply(w, worker, Save(key, row));
    assert row.lookup in LookupsOf(t.keys, {key});
    forall l | l in CacheOf(t.caches, worker) ensures exists k :: k in t.keys && t.keys[k].lookup == l {
      var k :| k in w.keys && w.keys[k].lookup == l;
      assert t.keys[k].lookup == l;
    }
    forall k | k in t.keys && t.keys[k].lookup in CacheOf(t.caches, worker)
      ensures CacheOf(t.caches, worker)[t.keys[k].lookup] == View(t, k)
    {
      assert k != key;
    }
  }

  // ---------------------------------------------------------------------
  // The caches of the others
  // ---------------------------------------------------------------------

  /** The keys whose row or allowlist the operation really changes. */
  function Touched(w: World, op: Op): set<nat> {
    match op
    case Add(key, accounts) => if accounts <= AccountsOf(w.links, key) then {} else {key}
    case Remove(key, accounts) => if accounts !! AccountsOf(w.links, key) then {} else {key}
    case Clear(key) => if AccountsOf(w.links, key) == {} then {} else {key}
    case ReverseAdd(account, keys) => keys - KeysOf(w.links, account)
    case ReverseRemove(account, keys) => keys * KeysOf(w.links, account)
    case ReverseClear(account) => KeysOf(w.links, account)
    case Save(key, row) => if key in w.keys && w.keys[key] != row then {key} else {}
    case _ => {}
  }

  lemma AccountIsLinked(links: set<(nat, nat)>, key: nat, account: nat)
    ensures account in AccountsOf(links, key) <==> (key, account) in links
    ensures key in KeysOf(links, account) <==> (key, account) in links
  {
    if (key, account) in links {
      var l := (key, account);
      assert l in links && l.0 == key && l.1 == account;
    }
  }

  /** The allowlist of k after the operation, by what it was before. */
  lemma AccountsAfter(w: World, worker: nat, op: Op, k: nat, a: nat)
    requires Allowed(w, op)
    ensures a in AccountsOf(Apply(w, worker, op).links, k) <==>
            match op
            case Add(key, accounts) => a in AccountsOf(w.links, k) || (k == key && a in accounts)
            case Remove(key, accounts) => a in AccountsOf(w.links, k) && !(k == key && a in accounts)
            case Clear(key) => a in AccountsOf(w.links, k) && k != key
            case ReverseAdd(account, keys) => a in AccountsOf(w.links, k) || (a == account && k in keys)
            case ReverseRemove(account, keys) => a in AccountsOf(w.links, k) && !(a == account && k in keys)
            case ReverseClear(account) => a in AccountsOf(w.links, k) && a != account
            case _ => a in AccountsOf(w.links, k)
  {
    AccountIsLinked(w.links, k, a);
    AccountIsLinked(Apply(w, worker, op).links, k, a);
  }

  lemma ViewChangesIffTouched(w: World, worker: nat, op: Op, k: nat)
    requires Allowed(w, op) && k in w.keys
    ensures k in Apply(w, worker, op).keys
    ensures View(Apply(w, worker, op), k) != View(w, k) <==> k in Touched(w, op)
  {
    AccountsChangeIffTouched(w, worker, op, k);
  }

  lemma AccountsChangeIffTouched(w: World, worker: nat, op: Op, k: nat)
    requires Allowed(w, op)
    ensures AccountsOf(Apply(w, worker, op).links, k) != AccountsOf(w.links, k) <==> k in Touched(w, op) && !op.Save?
  {
    var t := Apply(w, worker, op);
    hide Apply, AccountsOf, KeysOf;
    forall a
      ensures a in AccountsOf(t.links, k) <==> a in AccountsAfterwards(w, op, k)
    {
      AccountsAfter(w, worker, op, k, a);
    }
    assert AccountsOf(t.links, k) == AccountsAfterwards(w, op, k);
    if op.ReverseAdd? || op.ReverseRemove? || op.ReverseClear? {
      AccountIsLinked(w.links, k, op.account);
    }
  }

  function AccountsAfterwards(w: World, op: Op, k: nat): set<nat> {
    var before := AccountsOf(w.links, k);
    match op
    case Add(key, accounts) => if k == key then before + accounts else before
    case Remove(key, accounts) => if k == key then before - accounts else before
    case Clear(key) => if k == key then {} else before
    case ReverseAdd(account, keys) => if k in keys then before + {account} else before
    case ReverseRemove(account, keys) => if k in keys then before - {account} else before
    case ReverseClear(account) => before - {account}
    case _ => before
  }

  /**
   * Any other worker's cache stays coherent exactly when it holds none of the keys the operation changes:
   * no receiver reaches it.
   */
  lemma OthersStayCoherentIff(w: World, worker: nat, other: nat, op: Op)
    requires Allowed(w, op) && other != worker && Coherent(w, other)
    ensures Coherent(Apply(w, worker, op), other)
            <==> forall k :: k in w.keys && k in Touched(w, op) ==> w.keys[k].lookup !in CacheOf(w.caches, other)
  {
    hide Apply, Touched, AccountsOf;
    var t := Apply(w, worker, op);
    var cache := CacheOf(w.caches, other);
    KeysStay(w, worker, other, op);
    forall k | k in w.keys ensures View(t, k) != View(w, k) <==> k in Touched(w, op) {
      ViewChangesIffTouched(w, worker, op, k);
    }
    forall l | l in cache ensures exists k :: k in t.keys && t.keys[k].lookup == l {
      var k :| k in w.keys && w.keys[k].lookup == l;
      assert t.keys[k].lookup == l;
    }
  }

  /** No operation removes a key, renames a lookup or reaches another worker's cache; a new key is cached nowhere. */
  lemma KeysStay(w: World, worker: nat, other: nat, op: Op)
    requires Allowed(w, op) && other != worker && Coherent(w, other)
    ensures var t := Apply(w, worker, op);
            && CacheOf(t.caches, other) == CacheOf(w.caches, other)
            && DistinctLookups(t.keys)
            && (forall k :: k in w.keys ==> k in t.keys && t.keys[k].lookup == w.keys[k].lookup)
            && (forall k :: k in t.keys && k !in w.keys ==> t.keys[k].lookup !in CacheOf(w.caches, other))
  {
  }

  // ---------------------------------------------------------------------
  // Sequential runs
  // ---------------------------------------------------------------------

  /** One operation and the worker it is performed in. */
  datatype Act = Act(worker: nat, op: Op)

  ghost predicate Run(w: World, acts: seq<Act>, t: World)
    decreases |acts|
  {
    if acts == [] then w == t
    else Allowed(w, acts[0].op) && Run(Apply(w, acts[0].worker, acts[0].op), acts[1..], t)
  }

  /** No other worker changes a key that `worker` has cached at the time. */
  ghost predicate Undisturbed(w: World, worker: nat, acts: seq<Act>)
    decreases |acts|
  {
    acts == [] ||
    (&& Allowed(w, acts[0].op)
     && (acts[0].worker == worker ||
         forall k :: k in w.keys && k in Touched(w, acts[0].op) ==> w.keys[k].lookup !in CacheOf(w.caches, worker))
     && Undisturbed(Apply(w, acts[0].worker, acts[0].op), worker, acts[1..]))
  }

  /**
   * In every sequential run each row a worker has cached agrees with the database, on allowlist,
   * permissions, expiry and revocation, unless another worker changed a key it had cached.
   */
  lemma {:induction false} EveryRunIsCoherent(w: World, worker: nat, acts: seq<Act>, t: World)
    requires Coherent(w, worker) && Run(w, acts, t) && Undisturbed(w, worker, acts)
    ensures Coherent(t, worker)
    decreases |acts|
  {
    if acts != [] {
      if acts[0].worker == worker {
        OpKeepsCoherent(w, worker, acts[0].op);
      } else {
        OthersStayCoherentIff(w, acts[0].worker, worker, acts[0].op);
      }
      EveryRunIsCoherent(Apply(w, acts[0].worker, acts[0].op), worker, acts[1..], t);
    }
  }

  /** With one worker, or one cache for all of them, no condition is left. */
  lemma {:induction false} OneCacheIsAlwaysCoherent(w: World, worker: nat, acts: seq<Act>, t: World)
    requires Coherent(w, worker) && Run(w, acts, t) && forall i :: 0 <= i < |acts| ==> acts[i].worker == worker
    ensures Coherent(t, worker)
    decreases |acts|
  {
    if acts != [] {
      OpKeepsCoherent(w, worker, acts[0].op);
      OneCacheIsAlwaysCoherent(Apply(w, worker, acts[0].op), worker, acts[1..], t);
    }
  }

  /** Worker 1 removes an account that worker 2 has cached with the key: worker 2 keeps offering it. */
  lemma RemovalLeavesOtherWorkersBehind(row: KeyRow)
    ensures var w := World(map[7 := row], {(7, 3)}, map[]);
            var cached := Apply(w, 2, Fill(7));
            var t := Apply(cached, 1, Remove(7, {3}));
            && Coherent(cached, 2) && Coherent(t, 1) && !Coherent(t, 2)
            && AccountsOf(t.links, 7) == {} && CacheOf(t.caches, 2)[row.lookup].accounts == {3}
  {
    var w := World(map[7 := row], {(7, 3)}, map[]);
    var cached := Apply(w, 2, Fill(7));
    AccountIsLinked(w.links, 7, 3);
    assert AccountsOf(w.links, 7) == {3};
    var t := Apply(cached, 1, Remove(7, {3}));
    OpKeepsCoherent(cached, 1, Remove(7, {3}));
    OthersStayCoherentIff(cached, 1, 2, Remove(7, {3}));
    assert t.links == {};
  }

  /** Asking the relation after the clear finds nobody: that is why the ids are stashed before. */
  lemma QueryAfterClearFindsNobody(w: World, account: nat)
    ensures KeysOf(WithoutAccount(w.links, account), account) == {}
  {
  }

  /** A receiver that did so would leave its worker's cache coherent only if no linked key was cached there. */
  lemma ClearWithoutStashCoherentIff(w: World, worker: nat, account: nat)
    requires Coherent(w, worker)
    ensures var links := WithoutAccount(w.links, account);
            Coherent(Invalidated(w.(links := links), worker, KeysOf(links, account)), worker)
            <==> forall k :: k in w.keys && k in KeysOf(w.links, account) ==>
                               w.keys[k].lookup !in CacheOf(w.caches, worker)
  {
    var links := WithoutAccount(w.links, account);
    QueryAfterClearFindsNobody(w, account);
    var t := Invalidated(w.(links := links), worker, KeysOf(links, account));
    assert LookupsOf(w.keys, {}) == {};
    assert CacheOf(t.caches, worker) == CacheOf(w.caches, worker);
    ReverseClearTouchesOnlyLinkedKeys(w, account);
    if Coherent(t, worker) {
      forall k | k in w.keys && k in KeysOf(w.links, account)
        ensures w.keys[k].lookup !in CacheOf(w.caches, worker)
      {
        assert (k, account) in w.links;
        assert account in AccountsOf(w.links, k) && account !in AccountsOf(links, k);
        assert View(w, k) != View(t, k);
      }
    }
  }
}
