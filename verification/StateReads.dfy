/**
 Checkpoints as databases.

 Reading an account, a storage slot or code scans the history from the newest checkpoint back and
 falls through to the parent block.  The reference is the world that results from applying the changes
 of every checkpoint, oldest first, to the parent block.
 */
module StateReads {
  import opened Wrappers
  import opened Payload
  import opened Spans

  // ---------------------------------------------------------------------------------------
  // The reference

  function ApplyDiff(w: World, d: Diff): World {
    World(
      map a | a in w.accounts.Keys + d.accounts.Keys && (a in d.accounts ==> d.accounts[a].info.Some?) ::
        if a in d.accounts then d.accounts[a].info.value else w.accounts[a],
      map k | && k in w.storage.Keys + Written(d)
              && (k in Written(d) || k.0 !in d.accounts || d.accounts[k.0].info.Some?) ::
        if k in Written(d) then d.accounts[k.0].storage[k.1] else w.storage[k],
      w.codes + d.codes)
  }

  /** The slots that a change writes. */
  function Written(d: Diff): (slots: set<(Address, Slot)>)
    ensures forall a, slot :: (a, slot) in slots <==> a in d.accounts && slot in d.accounts[a].storage
  {
    set a, slot | a in d.accounts && slot in d.accounts[a].storage :: (a, slot)
  }

  function WorldAt(c: Checkpoint): World {
    var before := if c.prev.Some? then WorldAt(c.prev.value) else c.block.base;
    match c.mutation
    case Barrier => before
    case Executed(r) => ApplyDiff(before, r.state)
  }

  function Lookup<K, V>(m: map<K, V>, k: K): Option<V> {
    if k in m then Some(m[k]) else None
  }

  function SlotValue(w: World, a: Address, slot: Slot): Value {
    if (a, slot) in w.storage then w.storage[(a, slot)] else 0
  }

  /** Both changes touch the account, and one of them deletes it. */
  ghost predicate DeletedAmidst(first: Diff, second: Diff, a: Address) {
    && a in first.accounts && a in second.accounts
    && (first.accounts[a].info.None? || second.accounts[a].info.None?)
  }

  /** What a change leaves in an account, and in a slot. */
  function InfoAfter(before: Option<Info>, d: Diff, a: Address): Option<Info> {
    if a in d.accounts then d.accounts[a].info else before
  }

  function SlotAfter(before: Option<Value>, d: Diff, k: (Address, Slot)): Option<Value> {
    if k.0 in d.accounts && k.1 in d.accounts[k.0].storage then Some(d.accounts[k.0].storage[k.1])
    else if k.0 in d.accounts && d.accounts[k.0].info.None? then None
    else before
  }

  lemma {:induction false} AfterDiff(w: World, d: Diff, k: (Address, Slot))
    ensures Lookup(ApplyDiff(w, d).accounts, k.0) == InfoAfter(Lookup(w.accounts, k.0), d, k.0)
    ensures Lookup(ApplyDiff(w, d).storage, k) == SlotAfter(Lookup(w.storage, k), d, k)
  {
    assert k in Written(d) <==> k.0 in d.accounts && k.1 in d.accounts[k.0].storage;
  }

  lemma {:induction false} AfterCommit(first: Diff, second: Diff, info: Option<Info>, value: Option<Value>,
      k: (Address, Slot))
    ensures InfoAfter(info, Commit(first, second), k.0) == InfoAfter(InfoAfter(info, first, k.0), second, k.0)
    ensures !DeletedAmidst(first, second, k.0) ==>
      SlotAfter(value, Commit(first, second), k) == SlotAfter(SlotAfter(value, first, k), second, k)
  {
  }

  lemma SameMaps<K(!new), V(!new)>(m: map<K, V>, n: map<K, V>)
    requires forall k :: Lookup(m, k) == Lookup(n, k)
    ensures m == n
  {
    forall k
      ensures k in m <==> k in n
      ensures k in m ==> m[k] == n[k]
    {
      assert Lookup(m, k) == Lookup(n, k);
    }
  }

  lemma {:induction false} CommitIsBothAt(w: World, first: Diff, second: Diff, k: (Address, Slot))
    ensures var both, after := ApplyDiff(w, Commit(first, second)), ApplyDiff(ApplyDiff(w, first), second);
            && Lookup(both.accounts, k.0) == Lookup(after.accounts, k.0)
            && (!DeletedAmidst(first, second, k.0) ==> Lookup(both.storage, k) == Lookup(after.storage, k))
  {
    AfterDiff(w, Commit(first, second), k);
    AfterDiff(w, first, k);
    AfterDiff(ApplyDiff(w, first), second, k);
    AfterCommit(first, second, Lookup(w.accounts, k.0), Lookup(w.storage, k), k);
  }

  /** Committing one change on top of another leaves the world that both leave one after the other; for storage only if
      neither deletes an account that both touch. */
  lemma {:induction false} CommitIsBoth(w: World, first: Diff, second: Diff)
    ensures ApplyDiff(w, Commit(first, second)).accounts == ApplyDiff(ApplyDiff(w, first), second).accounts
    ensures ApplyDiff(w, Commit(first, second)).codes == ApplyDiff(ApplyDiff(w, first), second).codes
    ensures (forall a :: !DeletedAmidst(first, second, a)) ==>
      ApplyDiff(w, Commit(first, second)).storage == ApplyDiff(ApplyDiff(w, first), second).storage
  {
    CommittedAccounts(w, first, second);
    MapAssociative(w.codes, first.codes, second.codes);
    if forall a :: !DeletedAmidst(first, second, a) {
      CommittedStorage(w, first, second);
    }
  }

  lemma MapAssociative<K(!new), V(!new)>(a: map<K, V>, b: map<K, V>, c: map<K, V>)
    ensures a + (b + c) == (a + b) + c
  {
  }

  lemma {:induction false} CommittedAccounts(w: World, first: Diff, second: Diff)
    ensures ApplyDiff(w, Commit(first, second)).accounts == ApplyDiff(ApplyDiff(w, first), second).accounts
  {
    var both, after := ApplyDiff(w, Commit(first, second)).accounts, ApplyDiff(ApplyDiff(w, first), second).accounts;
    forall a: Address
      ensures Lookup(both, a) == Lookup(after, a)
    {
      CommitIsBothAt(w, first, second, (a, 0));
    }
    SameMaps(both, after);
  }

  lemma {:induction false} CommittedStorage(w: World, first: Diff, second: Diff)
    requires forall a :: !DeletedAmidst(first, second, a)
    ensures ApplyDiff(w, Commit(first, second)).storage == ApplyDiff(ApplyDiff(w, first), second).storage
  {
    var both, after := ApplyDiff(w, Commit(first, second)).storage, ApplyDiff(ApplyDiff(w, first), second).storage;
    forall k: (Address, Slot)
      ensures Lookup(both, k) == Lookup(after, k)
    {
      CommitIsBothAt(w, first, second, k);
    }
    SameMaps(both, after);
  }

  // ---------------------------------------------------------------------------------------
  // The reads

  /** What a checkpoint itself did to an account. */
  function Touch(c: Checkpoint, a: Address): Option<AccountDiff> {
    match c.mutation
    case Barrier => None
    case Executed(r) => Lookup(r.state.accounts, a)
  }

  /** `basic_ref`: the newest info of an account that some checkpoint left behind. */
  function BasicRef(c: Checkpoint, a: Address): Option<Info> {
    if Touch(c, a).Some? && Touch(c, a).value.info.Some? then Touch(c, a).value.info
    else if c.prev.Some? then BasicRef(c.prev.value, a)
    else Lookup(c.block.base.accounts, a)
  }

  /** `storage_ref`: the newest value of a slot. */
  function StorageRef(c: Checkpoint, a: Address, slot: Slot): Value {
    if Touch(c, a).Some? && slot in Touch(c, a).value.storage then Touch(c, a).value.storage[slot]
    else if c.prev.Some? then StorageRef(c.prev.value, a, slot)
    else SlotValue(c.block.base, a, slot)
  }

  /** `code_by_hash_ref`. */
  function CodeRef(c: Checkpoint, h: Hash): Option<Code> {
    if c.mutation.Executed? && h in c.mutation.result.state.codes then Some(c.mutation.result.state.codes[h])
    else if c.prev.Some? then CodeRef(c.prev.value, h)
    else Lookup(c.block.base.codes, h)
  }

  // ---------------------------------------------------------------------------------------
  // Agreement

  /** Code is never removed, so reads of it always agree. */
  lemma {:induction false} CodeReadsAgree(c: Checkpoint, h: Hash)
    requires WellFormed(c)
    ensures CodeRef(c, h) == Lookup(WorldAt(c).codes, h)
    decreases c
  {
    if c.prev.Some? {
      CodeReadsAgree(c.prev.value, h);
    }
  }

  /** The checkpoint leaves the account with an info. */
  predicate LeavesInfo(c: Checkpoint, a: Address) {
    Touch(c, a).Some? && Touch(c, a).value.info.Some?
  }

  predicate Deletes(c: Checkpoint, a: Address) {
    Touch(c, a).Some? && Touch(c, a).value.info.None?
  }

  predicate Writes(c: Checkpoint, a: Address, slot: Slot) {
    Touch(c, a).Some? && slot in Touch(c, a).value.storage
  }

  ghost predicate SomeInfo(h: Span, a: Address) {
    exists k :: 0 <= k < |h| && LeavesInfo(h[k], a)
  }

  /** The i-th checkpoint deletes the account and no newer one touches it. */
  ghost predicate DeletedLast(h: Span, a: Address, i: int) {
    0 <= i < |h| && Deletes(h[i], a) && forall j :: i < j < |h| ==> Touch(h[j], a).None?
  }

  /** The last checkpoint that touches the account deletes it, but the parent block has the account or some
      checkpoint before the deletion leaves an info. */
  ghost predicate InfoResurfaces(c: Checkpoint, a: Address) {
    var h := History(c);
    exists i :: DeletedLast(h, a, i) && (a in c.block.base.accounts || SomeInfo(h[..i], a))
  }

  lemma {:induction false} SomeInfoSnoc(h: Span, c: Checkpoint, a: Address)
    ensures SomeInfo(h + [c], a) <==> SomeInfo(h, a) || LeavesInfo(c, a)
  {
    var all := h + [c];
    if SomeInfo(h, a) {
      var k :| 0 <= k < |h| && LeavesInfo(h[k], a);
      assert LeavesInfo(all[k], a);
    }
    if LeavesInfo(c, a) {
      assert LeavesInfo(all[|h|], a);
    }
  }

  /** An account is found exactly if the parent block has it or some checkpoint leaves an info. */
  lemma {:induction false} FoundIff(c: Checkpoint, a: Address)
    requires WellFormed(c)
    ensures BasicRef(c, a).Some? <==> a in c.block.base.accounts || SomeInfo(History(c), a)
    decreases c
  {
    if c.prev.Some? {
      FoundIff(c.prev.value, a);
      SomeInfoSnoc(History(c.prev.value), c, a);
    } else {
      assert History(c) == [] + [c];
      SomeInfoSnoc([], c, a);
    }
  }

  lemma {:induction false} DeletedLastSnoc(h: Span, c: Checkpoint, a: Address, i: int)
    ensures DeletedLast(h + [c], a, i) <==>
      if i == |h| then Deletes(c, a) else Touch(c, a).None? && DeletedLast(h, a, i)
  {
    var all := h + [c];
    assert all[|h|] == c;
    if 0 <= i < |h| && Touch(c, a).None? && DeletedLast(h, a, i) {
      forall j | i < j < |all|
        ensures Touch(all[j], a).None?
      {
        assert j < |h| ==> all[j] == h[j];
      }
    }
    if 0 <= i < |h| && DeletedLast(all, a, i) {
      forall j | i < j < |h|
        ensures Touch(h[j], a).None?
      {
        assert all[j] == h[j];
      }
    }
  }

  lemma {:induction false} InfoResurfacesNext(c: Checkpoint, a: Address)
    requires c.prev.Some? && c.block == c.prev.value.block
    ensures InfoResurfaces(c, a) <==>
      if Touch(c, a).None? then InfoResurfaces(c.prev.value, a)
      else Deletes(c, a) && (a in c.block.base.accounts || SomeInfo(History(c.prev.value), a))
  {
    var h, all := History(c.prev.value), History(c);
    forall i
      ensures DeletedLast(all, a, i) <==> if i == |h| then Deletes(c, a) else Touch(c, a).None? && DeletedLast(h, a, i)
      ensures 0 <= i <= |h| ==> all[..i] == h[..i]
    {
      DeletedLastSnoc(h, c, a, i);
    }
    assert all[..|h|] == h;
    if Deletes(c, a) {
      assert DeletedLast(all, a, |h|);
    }
    if Touch(c, a).None? && InfoResurfaces(c.prev.value, a) {
      var i :| DeletedLast(h, a, i) && (a in c.block.base.accounts || SomeInfo(h[..i], a));
      assert DeletedLast(all, a, i);
    }
  }

  /** Reading an account agrees with the reference if and only if no older info of a deleted account
      shines through. */
  lemma {:induction false} AccountReadsAgreeIff(c: Checkpoint, a: Address)
    requires WellFormed(c)
    ensures BasicRef(c, a) == Lookup(WorldAt(c).accounts, a) <==> !InfoResurfaces(c, a)
    decreases c
  {
    if c.prev.Some? {
      AccountReadsAgreeIff(c.prev.value, a);
      InfoResurfacesNext(c, a);
      FoundIff(c.prev.value, a);
    } else {
      assert !InfoResurfaces(c, a);
    }
  }

  /** The k-th checkpoint writes the slot and no newer one does. */
  ghost predicate WrittenLast(h: Span, a: Address, slot: Slot, k: int) {
    0 <= k < |h| && Writes(h[k], a, slot) && forall j :: k < j < |h| ==> !Writes(h[j], a, slot)
  }

  /** The newest write in the span was not zero, or there is none and the parent block has a value other than zero. */
  ghost predicate LeftNonzero(h: Span, base: World, a: Address, slot: Slot) {
    || (exists k :: WrittenLast(h, a, slot, k) && Touch(h[k], a).value.storage[slot] != 0)
    || ((forall k :: 0 <= k < |h| ==> !Writes(h[k], a, slot)) && SlotValue(base, a, slot) != 0)
  }

  /** The i-th checkpoint deletes the account without writing the slot, and no newer one deletes it or writes
      the slot. */
  ghost predicate ClearedLast(h: Span, a: Address, slot: Slot, i: int) {
    && 0 <= i < |h| && Deletes(h[i], a) && !Writes(h[i], a, slot)
    && forall j :: i < j < |h| ==> !Deletes(h[j], a) && !Writes(h[j], a, slot)
  }

  /** A deletion cleared the slot and nothing has written it since, but before the deletion it was not zero. */
  ghost predicate SlotResurfaces(c: Checkpoint, a: Address, slot: Slot) {
    var h := History(c);
    exists i :: ClearedLast(h, a, slot, i) && LeftNonzero(h[..i], c.block.base, a, slot)
  }

  lemma {:induction false} WrittenLastSnoc(h: Span, c: Checkpoint, a: Address, slot: Slot, k: int)
    ensures WrittenLast(h + [c], a, slot, k) <==>
      if k == |h| then Writes(c, a, slot) else !Writes(c, a, slot) && WrittenLast(h, a, slot, k)
  {
    var all := h + [c];
    assert all[|h|] == c && forall j :: 0 <= j < |h| ==> all[j] == h[j];
  }

  lemma {:induction false} LeftNonzeroSnoc(h: Span, c: Checkpoint, base: World, a: Address, slot: Slot)
    ensures LeftNonzero(h + [c], base, a, slot) <==>
      if Writes(c, a, slot) then Touch(c, a).value.storage[slot] != 0 else LeftNonzero(h, base, a, slot)
  {
    var all := h + [c];
    assert all[|h|] == c && forall j :: 0 <= j < |h| ==> all[j] == h[j];
    forall k
      ensures WrittenLast(all, a, slot, k) <==>
        if k == |h| then Writes(c, a, slot) else !Writes(c, a, slot) && WrittenLast(h, a, slot, k)
    {
      WrittenLastSnoc(h, c, a, slot, k);
    }
  }

  /** The value that is read is the newest one written, or that of the parent block. */
  lemma {:induction false} ReadsNonzeroIff(c: Checkpoint, a: Address, slot: Slot)
    requires WellFormed(c)
    ensures StorageRef(c, a, slot) != 0 <==> LeftNonzero(History(c), c.block.base, a, slot)
    decreases c
  {
    if c.prev.Some? {
      ReadsNonzeroIff(c.prev.value, a, slot);
      LeftNonzeroSnoc(History(c.prev.value), c, c.block.base, a, slot);
    } else {
      assert History(c) == [] + [c];
      LeftNonzeroSnoc([], c, c.block.base, a, slot);
    }
  }

  lemma {:induction false} ClearedLastSnoc(h: Span, c: Checkpoint, a: Address, slot: Slot, i: int)
    ensures ClearedLast(h + [c], a, slot, i) <==>
      !Writes(c, a, slot) && if i == |h| then Deletes(c, a) else !Deletes(c, a) && ClearedLast(h, a, slot, i)
  {
    var all := h + [c];
    assert all[|h|] == c && forall j :: 0 <= j < |h| ==> all[j] == h[j];
  }

  lemma {:induction false} SlotResurfacesNext(c: Checkpoint, a: Address, slot: Slot)
    requires c.prev.Some? && c.block == c.prev.value.block
    ensures SlotResurfaces(c, a, slot) <==>
      !Writes(c, a, slot) &&
      if Deletes(c, a) then LeftNonzero(History(c.prev.value), c.block.base, a, slot)
      else SlotResurfaces(c.prev.value, a, slot)
  {
    var h, all := History(c.prev.value), History(c);
    forall i
      ensures ClearedLast(all, a, slot, i) <==>
        !Writes(c, a, slot) && if i == |h| then Deletes(c, a) else !Deletes(c, a) && ClearedLast(h, a, slot, i)
      ensures 0 <= i <= |h| ==> all[..i] == h[..i]
    {
      ClearedLastSnoc(h, c, a, slot, i);
    }
    assert all[..|h|] == h;
    if !Writes(c, a, slot) && Deletes(c, a) {
      assert ClearedLast(all, a, slot, |h|);
    }
    if !Writes(c, a, slot) && !Deletes(c, a) && SlotResurfaces(c.prev.value, a, slot) {
      var i :| ClearedLast(h, a, slot, i) && LeftNonzero(h[..i], c.block.base, a, slot);
      assert ClearedLast(all, a, slot, i);
    }
  }

  /** Reading a slot agrees with the reference if and only if no value from before a deletion shines through. */
  lemma {:induction false} StorageReadsAgreeIff(c: Checkpoint, a: Address, slot: Slot)
    requires WellFormed(c)
    ensures StorageRef(c, a, slot) == SlotValue(WorldAt(c), a, slot) <==> !SlotResurfaces(c, a, slot)
    decreases c
  {
    if c.prev.Some? {
      StorageReadsAgreeIff(c.prev.value, a, slot);
      SlotResurfacesNext(c, a, slot);
      ReadsNonzeroIff(c.prev.value, a, slot);
    } else {
      assert !SlotResurfaces(c, a, slot);
    }
  }

  /** No checkpoint in the history deletes an account. */
  ghost predicate NoDeletions(c: Checkpoint) {
    && (c.mutation.Executed? ==>
         forall a :: a in c.mutation.result.state.accounts ==> c.mutation.result.state.accounts[a].info.Some?)
    && (c.prev.Some? ==> NoDeletions(c.prev.value))
  }

  /** Without deletions every checkpoint of every fork is a faithful database. */
  lemma {:induction false} ReadsAgreeWithoutDeletions(c: Checkpoint, a: Address, slot: Slot)
    requires WellFormed(c) && NoDeletions(c)
    ensures BasicRef(c, a) == Lookup(WorldAt(c).accounts, a)
    ensures StorageRef(c, a, slot) == SlotValue(WorldAt(c), a, slot)
  {
    NothingResurfaces(c, a, slot);
    AccountReadsAgreeIff(c, a);
    StorageReadsAgreeIff(c, a, slot);
  }

  lemma {:induction false} NothingResurfaces(c: Checkpoint, a: Address, slot: Slot)
    requires WellFormed(c) && NoDeletions(c)
    ensures !InfoResurfaces(c, a) && !SlotResurfaces(c, a, slot)
    decreases c
  {
    if c.prev.Some? {
      NothingResurfaces(c.prev.value, a, slot);
      InfoResurfacesNext(c, a);
      SlotResurfacesNext(c, a, slot);
    }
  }

  /** Whatever the payload so far, deleting an existing account leaves its old info readable. */
  lemma DeletedAccountIsStillRead(c: Checkpoint, a: Address, tx: Transaction, result: TxResult, id: nat)
    requires WellFormed(c) && BasicRef(c, a).Some?
    ensures var gone := Diff(map[a := AccountDiff(BasicRef(c, a), None, map[])], map[]);
            var next := ApplyWith(c, Executed(ExecutionResult(Single(tx), [result], gone)), id);
            BasicRef(next, a) == BasicRef(c, a) && a !in WorldAt(next).accounts
  {
    var gone := Diff(map[a := AccountDiff(BasicRef(c, a), None, map[])], map[]);
    var next := ApplyWith(c, Executed(ExecutionResult(Single(tx), [result], gone)), id);
    assert Touch(next, a) == Some(AccountDiff(BasicRef(c, a), None, map[]));
    FoundIff(c, a);
    InfoResurfacesNext(next, a);
    AccountReadsAgreeIff(next, a);
  }

  /** `nonce_of`: an account that does not exist has nonce zero. */
  function NonceOf(c: Checkpoint, a: Address): nat {
    var info := BasicRef(c, a);
    if info.Some? then info.value.nonce else 0
  }
}
