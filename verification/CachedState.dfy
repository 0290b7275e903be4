/**
 The read-through cache in front of a state provider.

 Reads fill the cache; after a block has been executed its changes are inserted, so that the same cache
 serves the state after the block.
 */
module CachedState {
  import opened Wrappers

  type Address = nat
  type Slot = nat
  type Value = nat
  type Hash = nat
  type Code = nat
  type Account = nat
  type ProviderError = nat

  /** A state to read from; any read may fail. */
  datatype Provider = Provider(
    account: Address -> Result<Option<Account>, ProviderError>,
    storage: (Address, Slot) -> Result<Option<Value>, ProviderError>,
    code: Hash -> Result<Option<Code>, ProviderError>)

  datatype Cache = Cache(
    code: map<Hash, Option<Code>>,
    storage: map<Address, map<Slot, Option<Value>>>,
    account: map<Address, Option<Account>>)

  datatype SlotStatus = NotCached | Empty | Stored(value: Value)

  /** What a block did to an account. */
  datatype AccountChange = AccountChange(
    notModified: bool,
    destroyed: bool,
    info: Option<Account>,
    storage: map<Slot, Value>)

  datatype Changes = Changes(contracts: map<Hash, Code>, accounts: map<Address, AccountChange>)

  /** Storage that is not there is zero. */
  function Amount(v: Option<Value>): Value {
    if v.Some? then v.value else 0
  }

  ghost predicate SameStorage(a: Result<Option<Value>, ProviderError>, v: Option<Value>) {
    a.Success? && Amount(a.value) == Amount(v)
  }

  predicate Holds(c: Cache, a: Address, slot: Slot) {
    a in c.storage && slot in c.storage[a]
  }

  /** Whatever the cache holds is what the provider says. */
  ghost predicate Coherent(c: Cache, p: Provider) {
    && (forall a :: a in c.account ==> p.account(a) == Success(c.account[a]))
    && (forall a, slot :: Holds(c, a, slot) ==> SameStorage(p.storage(a, slot), c.storage[a][slot]))
    && forall h :: h in c.code ==> p.code(h) == Success(c.code[h])
  }

  // ---------------------------------------------------------------------------------------
  // Inserting the changes of a block

  predicate Updated(change: AccountChange) {
    !change.notModified && !change.destroyed
  }

  /** A modified account without info that was not destroyed: the changes make no sense. */
  predicate Inconsistent(change: AccountChange) {
    Updated(change) && change.info.None?
  }

  function UpdatedSlots(before: map<Slot, Option<Value>>, slots: map<Slot, Value>): (r: map<Slot, Option<Value>>)
    ensures forall slot :: slot in r <==> slot in before || slot in slots
    ensures forall slot :: slot in slots ==> r[slot] == Some(slots[slot])
    ensures forall slot :: slot in before && slot !in slots ==> r[slot] == before[slot]
  {
    before + (map slot | slot in slots :: Some(slots[slot]))
  }

  /** The cache after an account's change. */
  function InsertAccount(c: Cache, a: Address, change: AccountChange): Cache {
    if change.notModified then c
    else if change.destroyed then c.(account := c.account - {a}, storage := c.storage - {a})
    else c.(storage := c.storage[a := UpdatedSlots(if a in c.storage then c.storage[a] else map[], change.storage)],
            account := c.account[a := change.info])
  }

  function InsertContracts(c: Cache, contracts: map<Hash, Code>): Cache {
    c.(code := c.code + (map h | h in contracts :: Some(contracts[h])))
  }

  /** `post` is the state after the changes on `pre`.  About an account that was destroyed nothing needs to be
      known, and of the storage it only counts what is not zero. */
  ghost predicate IsAfter(pre: Provider, changes: Changes, post: Provider) {
    && (forall h :: post.code(h) == if h in changes.contracts then Success(Some(changes.contracts[h])) else pre.code(h))
    && forall a :: AccountIsAfter(pre, a, if a in changes.accounts then Some(changes.accounts[a]) else None, post)
  }

  ghost predicate AccountIsAfter(pre: Provider, a: Address, change: Option<AccountChange>, post: Provider) {
    if change.None? || change.value.notModified then
      post.account(a) == pre.account(a) && forall slot :: post.storage(a, slot) == pre.storage(a, slot)
    else if change.value.destroyed then true
    else
      && post.account(a) == Success(change.value.info)
      && forall slot ::
           if slot in change.value.storage then SameStorage(post.storage(a, slot), Some(change.value.storage[slot]))
           else post.storage(a, slot) == pre.storage(a, slot)
  }

  /** The cache agrees with the state after the block on the accounts that have been dealt with, and with the
      state before it on those that are left. */
  ghost predicate CoherentBut(c: Cache, pre: Provider, post: Provider, left: set<Address>) {
    && (forall a :: a in c.account ==> (if a in left then pre else post).account(a) == Success(c.account[a]))
    && (forall a, slot :: Holds(c, a, slot) ==>
          SameStorage((if a in left then pre else post).storage(a, slot), c.storage[a][slot]))
    && forall h :: h in c.code ==> post.code(h) == Success(c.code[h])
  }

  lemma {:induction false} ContractsFirst(c: Cache, pre: Provider, changes: Changes, post: Provider)
    requires Coherent(c, pre) && IsAfter(pre, changes, post)
    ensures CoherentBut(InsertContracts(c, changes.contracts), pre, post, changes.accounts.Keys)
  {
    forall a | a !in changes.accounts.Keys
      ensures post.account(a) == pre.account(a)
      ensures forall slot :: post.storage(a, slot) == pre.storage(a, slot)
    {
      assert AccountIsAfter(pre, a, None, post);
    }
  }

  lemma {:induction false} InsertingOne(c: Cache, pre: Provider, changes: Changes, post: Provider, left: set<Address>,
      a: Address)
    requires CoherentBut(c, pre, post, left) && IsAfter(pre, changes, post)
    requires a in left && a in changes.accounts
    ensures CoherentBut(InsertAccount(c, a, changes.accounts[a]), pre, post, left - {a})
  {
    assert AccountIsAfter(pre, a, Some(changes.accounts[a]), post);
  }

  /** What has become of an account's entries. */
  ghost predicate EntriesAfter(before: Cache, after: Cache, a: Address, change: Option<AccountChange>) {
    if change.None? || change.value.notModified then
      && (a in after.account <==> a in before.account) && (a in after.account ==> after.account[a] == before.account[a])
      && (a in after.storage <==> a in before.storage) && (a in after.storage ==> after.storage[a] == before.storage[a])
    else if change.value.destroyed then a !in after.account && a !in after.storage
    else
      && a in after.account && after.account[a] == change.value.info
      && a in after.storage
      && after.storage[a] ==
           UpdatedSlots(if a in before.storage then before.storage[a] else map[], change.value.storage)
  }

  /** What a block did to an account, unless it is among those that are left. */
  function ChangeBut(changes: Changes, left: set<Address>, a: Address): Option<AccountChange> {
    if a in changes.accounts && a !in left then Some(changes.accounts[a]) else None
  }

  /** The changes have been inserted, except for the accounts that are left. */
  ghost predicate InsertedBut(before: Cache, after: Cache, changes: Changes, left: set<Address>) {
    && after.code == InsertContracts(before, changes.contracts).code
    && forall a :: EntriesAfter(before, after, a, ChangeBut(changes, left, a))
  }

  lemma {:induction false} InsertingOneMore(before: Cache, after: Cache, changes: Changes, left: set<Address>,
      a: Address)
    requires InsertedBut(before, after, changes, left) && a in left && a in changes.accounts
    ensures InsertedBut(before, InsertAccount(after, a, changes.accounts[a]), changes, left - {a})
  {
    assert EntriesAfter(before, after, a, ChangeBut(changes, left, a));
    var next := InsertAccount(after, a, changes.accounts[a]);
    forall b
      ensures EntriesAfter(before, next, b, ChangeBut(changes, left - {a}, b))
    {
      assert EntriesAfter(before, after, b, ChangeBut(changes, left, b));
    }
  }

  class ExecutionCache {
    var code: map<Hash, Option<Code>>
    var storage: map<Address, map<Slot, Option<Value>>>
    var account: map<Address, Option<Account>>

    function View(): Cache
      reads this
    {
      Cache(code, storage, account)
    }

    constructor ()
      ensures View() == Cache(map[], map[], map[])
    {
      code, storage, account := map[], map[], map[];
    }

    /** `get_storage`. */
    method GetStorage(a: Address, slot: Slot) returns (r: SlotStatus)
      ensures r.NotCached? <==> !Holds(View(), a, slot)
      ensures r.Empty? <==> Holds(View(), a, slot) && storage[a][slot] == None
      ensures r.Stored? ==> Holds(View(), a, slot) && storage[a][slot] == Some(r.value)
    {
      if a !in storage || slot !in storage[a] {
        return NotCached;
      }
      r := match storage[a][slot]
           case None => Empty
           case Some(value) => Stored(value);
    }

    /** `insert_storage`. */
    method InsertStorage(a: Address, slot: Slot, value: Option<Value>)
      modifies this`storage
      ensures Holds(View(), a, slot) && storage[a][slot] == value
      ensures forall b, s :: (b, s) != (a, slot) ==>
        && (Holds(View(), b, s) <==> Holds(old(View()), b, s))
        && (Holds(View(), b, s) ==> storage[b][s] == old(storage)[b][s])
    {
      var slots := if a in storage then storage[a] else map[];
      storage := storage[a := slots[slot := value]];
    }

    /** `insert_state`: succeeds exactly on changes that make sense, and turns a cache that is coherent with the
        state before them into one that is coherent with the state after them. */
    method InsertState(changes: Changes, ghost pre: Provider, ghost post: Provider) returns (ok: bool)
      requires Coherent(View(), pre) && IsAfter(pre, changes, post)
      modifies this
      ensures ok <==> forall a :: a in changes.accounts ==> !Inconsistent(changes.accounts[a])
      ensures ok ==> InsertedBut(old(View()), View(), changes, {})
      ensures ok ==> Coherent(View(), post)
    {
      ContractsFirst(View(), pre, changes, post);
      code := code + (map h | h in changes.contracts :: Some(changes.contracts[h]));
      ok := InsertAccounts(changes, pre, post, old(View()));
    }

    method InsertAccounts(changes: Changes, ghost pre: Provider, ghost post: Provider, ghost before: Cache)
      returns (ok: bool)
      requires IsAfter(pre, changes, post)
      requires CoherentBut(View(), pre, post, changes.accounts.Keys) &&
        InsertedBut(before, View(), changes, changes.accounts.Keys)
      modifies this
      ensures ok <==> forall a :: a in changes.accounts ==> !Inconsistent(changes.accounts[a])
      ensures ok ==> CoherentBut(View(), pre, post, {}) && InsertedBut(before, View(), changes, {})
    {
      var left := changes.accounts.Keys;
      while left != {}
        invariant left <= changes.accounts.Keys
        invariant CoherentBut(View(), pre, post, left) && InsertedBut(before, View(), changes, left)
        invariant forall a :: a in changes.accounts.Keys - left ==> !Inconsistent(changes.accounts[a])
        decreases left
      {
        var a :| a in left;
        InsertingOne(View(), pre, changes, post, left, a);
        InsertingOneMore(before, View(), changes, left, a);
        var inserted := InsertOne(a, changes.accounts[a]);
        if !inserted {
          return false;
        }
        left := left - {a};
      }
      ok := true;
    }

    method InsertOne(a: Address, change: AccountChange) returns (ok: bool)
      modifies this
      ensures ok <==> !Inconsistent(change)
      ensures ok ==> View() == InsertAccount(old(View()), a, change)
    {
      if change.notModified {
        return true;
      }
      if change.destroyed {
        account := account - {a};
        storage := storage - {a};
        return true;
      }
      if change.info.None? {
        return false;
      }
      var slots := if a in storage then storage[a] else map[];
      storage := storage[a := UpdatedSlots(slots, change.storage)];
      account := account[a := change.info];
      ok := true;
    }
  }

  class CachedStateProvider {
    const provider: Provider
    const caches: ExecutionCache

    ghost predicate Valid()
      reads this, caches
    {
      Coherent(caches.View(), provider)
    }

    /** `new_with_caches`. */
    constructor (provider: Provider, caches: ExecutionCache)
      requires Coherent(caches.View(), provider)
      ensures Valid() && this.provider == provider && this.caches == caches
    {
      this.provider, this.caches := provider, caches;
    }

    method BasicAccount(a: Address) returns (r: Result<Option<Account>, ProviderError>)
      requires Valid()
      modifies caches
      ensures Valid() && r == provider.account(a)
      ensures caches.View() ==
        if r.Success? then old(caches.View()).(account := old(caches.account)[a := r.value]) else old(caches.View())
    {
      if a in caches.account {
        assert caches.account[a := caches.account[a]] == caches.account;
        return Success(caches.account[a]);
      }
      r := provider.account(a);
      if r.Success? {
        caches.account := caches.account[a := r.value];
      }
    }

    /** Storage that is zero may be missing on one side. */
    method Storage(a: Address, slot: Slot) returns (r: Result<Option<Value>, ProviderError>)
      requires Valid()
      modifies caches
      ensures Valid()
      ensures if r.Success? then SameStorage(provider.storage(a, slot), r.value) else r == provider.storage(a, slot)
      ensures caches.account == old(caches.account) && caches.code == old(caches.code)
      ensures forall b, s :: Holds(caches.View(), b, s) <==>
        Holds(old(caches.View()), b, s) || (b == a && s == slot && r.Success?)
      ensures r.Success? ==> Holds(caches.View(), a, slot) && caches.storage[a][slot] == r.value
    {
      var status := caches.GetStorage(a, slot);
      match status
      case NotCached =>
        r := provider.storage(a, slot);
        if r.Success? {
          caches.InsertStorage(a, slot, r.value);
        }
      case Empty => r := Success(None);
      case Stored(value) => r := Success(Some(value));
    }

    method BytecodeByHash(h: Hash) returns (r: Result<Option<Code>, ProviderError>)
      requires Valid()
      modifies caches
      ensures Valid() && r == provider.code(h)
      ensures caches.View() ==
        if r.Success? then old(caches.View()).(code := old(caches.code)[h := r.value]) else old(caches.View())
    {
      if h in caches.code {
        assert caches.code[h := caches.code[h]] == caches.code;
        return Success(caches.code[h]);
      }
      r := provider.code(h);
      if r.Success? {
        caches.code := caches.code[h := r.value];
      }
    }
  }

  // ---------------------------------------------------------------------------------------
  // Destroyed accounts

  const DESTROYED := AccountChange(false, true, None, map[])

  /** The state once an account has been destroyed. */
  function Gone(pre: Provider, a: Address): Provider {
    pre.(account := b => if b == a then Success(None) else pre.account(b),
         storage := (b, slot) => if b == a then Success(None) else pre.storage(b, slot))
  }

  /** What would become of the cache if a destroyed account lost its entry but not its slots. */
  function KeepingSlots(c: Cache, a: Address): Cache {
    c.(account := c.account - {a})
  }

  /** Why a destroyed account takes its slots along: without that, the cache agrees with the state after the block
      if and only if every slot that it had of the account was zero. */
  lemma {:induction false} KeptStorageIsStaleIff(c: Cache, pre: Provider, a: Address)
    requires Coherent(c, pre)
    ensures IsAfter(pre, Changes(map[], map[a := DESTROYED]), Gone(pre, a))
    ensures Coherent(InsertAccount(c, a, DESTROYED), Gone(pre, a))
    ensures Coherent(KeepingSlots(c, a), Gone(pre, a)) <==>
      forall slot :: Holds(c, a, slot) ==> Amount(c.storage[a][slot]) == 0
  {
    var post, kept := Gone(pre, a), KeepingSlots(c, a);
    forall slot | Holds(c, a, slot)
      ensures SameStorage(post.storage(a, slot), kept.storage[a][slot]) <==> Amount(c.storage[a][slot]) == 0
    {
    }
    assert forall slot :: Holds(kept, a, slot) <==> Holds(c, a, slot);
  }
}
