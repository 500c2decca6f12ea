/**
 Exporting the script's state: which accounts and which storage slots of the committed state end up in
 the dump.
 */
module StateDump {
  import opened Prelude
  import HostState

  const SCRIPT_DEPLOYER: Address := 0x76Ce131128F3616871f8CDA86d18fAB44E4d0D8B
  const FORGE_DEPLOYER: Address := 0xaE0bDc4eEAC5E950B67C6819B118761CaAF61946

  datatype Account = Account(code: seq<Byte>, storage: map<Hash, Hash>, balance: nat, nonce: U64)

  type Accounts = map<Address, Account>

  /** The address of the contract that the script deployer creates with a given nonce. */
  type Creator = U64 -> Address

  /** A missing account reads as an empty one. */
  function DeployerNonce(m: Accounts): U64 {
    if SCRIPT_DEPLOYER in m then m[SCRIPT_DEPLOYER].nonce else 0
  }

  /** The account without the slots that hold zero. */
  function Clean(a: Account): Account {
    a.(storage := map k | k in a.storage && a.storage[k] != 0 :: a.storage[k])
  }

  /**
   The last nonce whose script address is removed: the deployer's nonce, unless an earlier script
   address is the deployer itself, whose removal makes its nonce read as zero.
   */
  function LastRemoved(create: Creator, i: U64, nonce: U64): (r: U64)
    requires i <= nonce
    ensures i <= r <= nonce
    ensures forall k: U64 :: i <= k < r ==> create(k) != SCRIPT_DEPLOYER
    ensures r == nonce || create(r) == SCRIPT_DEPLOYER
    decreases nonce - i
  {
    if i == nonce || create(i) == SCRIPT_DEPLOYER then i else LastRemoved(create, i + 1, nonce)
  }

  /** `a` is the address of a contract that the script deployer creates with a nonce below `n`. */
  predicate IsScript(create: Creator, n: nat, a: Address) {
    exists k: U64 :: 0 <= k < n && create(k) == a
  }

  /** Accounts that only exist for the sake of scripting. */
  predicate Temporary(precompiles: set<Address>, a: Address) {
    a == SCRIPT_DEPLOYER || a == FORGE_DEPLOYER || a == HostState.VM_ADDR || a in precompiles
  }

  lemma NextScript(create: Creator, i: U64, a: Address)
    ensures IsScript(create, i + 1, a) <==> a == create(i) || IsScript(create, i, a)
  {
  }

  /** Removes the scripts, re-reading the deployer's nonce each time round. */
  method RemoveScripts(m: Accounts, create: Creator) returns (out: Accounts)
    requires DeployerNonce(m) < TWO_64 - 1
    ensures var last := LastRemoved(create, 0, DeployerNonce(m));
            && (forall a :: a in out <==> a in m && !IsScript(create, last + 1, a))
            && (forall a :: a in out ==> out[a] == m[a])
  {
    var nonce := DeployerNonce(m);
    out := m;
    var i: U64 := 0;
    while i <= DeployerNonce(out)
      invariant i <= nonce + 1
      invariant forall a :: a in out <==> a in m && !IsScript(create, i, a)
      invariant forall a :: a in out ==> out[a] == m[a]
      invariant forall k: U64 :: 0 <= k && k + 1 < i ==> create(k) != SCRIPT_DEPLOYER || SCRIPT_DEPLOYER !in m
      invariant SCRIPT_DEPLOYER in m && SCRIPT_DEPLOYER !in out ==> i > 0 && create(i - 1) == SCRIPT_DEPLOYER
      decreases nonce + 1 - i
    {
      forall a ensures IsScript(create, i + 1, a) <==> a == create(i) || IsScript(create, i, a) {
        NextScript(create, i, a);
      }
      out := map a | a in out && a != create(i) :: out[a];
      i := i + 1;
    }
    assert i == LastRemoved(create, 0, nonce) + 1;
  }

  /** Drops the zero slots of every account. */
  method CleanStorage(m: Accounts) returns (out: Accounts)
    ensures out.Keys == m.Keys && forall a :: a in m ==> out[a] == Clean(m[a])
  {
    out := m;
    var todo := m.Keys;
    while todo != {}
      invariant todo <= m.Keys && out.Keys == m.Keys
      invariant forall a :: a in m ==> out[a] == if a in todo then m[a] else Clean(m[a])
    {
      var a :| a in todo;
      var storage := m[a].storage;
      var toDelete := set slot | slot in storage && storage[slot] == 0;
      out := out[a := m[a].(storage := storage - toDelete)];
      assert out[a] == Clean(m[a]);
      todo := todo - {a};
    }
  }

  /** What the dump holds, given the last script removed. */
  ghost predicate IsDump(create: Creator, precompiles: set<Address>, last: U64, m: Accounts, out: Accounts) {
    && (forall a :: a in out <==> a in m && !IsScript(create, last + 1, a) && !Temporary(precompiles, a))
    && (forall a :: a in out ==> out[a] == Clean(m[a]))
  }

  /**
   The dump holds exactly the committed accounts that are neither scripts nor temporary, each without
   its zero slots and otherwise untouched.
   */
  method Export(committed: Accounts, create: Creator, precompiles: set<Address>) returns (out: Accounts)
    requires DeployerNonce(committed) < TWO_64 - 1
    ensures IsDump(create, precompiles, LastRemoved(create, 0, DeployerNonce(committed)), committed, out)
  {
    var allocs := RemoveScripts(committed, create);
    allocs := CleanStorage(allocs);
    allocs := allocs - {SCRIPT_DEPLOYER};
    allocs := allocs - {FORGE_DEPLOYER};
    allocs := allocs - {HostState.VM_ADDR};
    out := allocs - precompiles;
  }

  /**
   Every script up to the deployer's nonce is left out exactly when no script address below the nonce
   is the deployer's own, or none of the later ones is in the state.
   */
  lemma ScriptsLeftOut(create: Creator, precompiles: set<Address>, m: Accounts, out: Accounts)
    requires IsDump(create, precompiles, LastRemoved(create, 0, DeployerNonce(m)), m, out)
    ensures (forall k: U64 :: k <= DeployerNonce(m) ==> create(k) !in out)
       <==> var last := LastRemoved(create, 0, DeployerNonce(m));
            forall k: U64 :: last < k <= DeployerNonce(m) && create(k) in m ==>
              IsScript(create, last + 1, create(k)) || Temporary(precompiles, create(k))
    ensures (forall k: U64 :: k < DeployerNonce(m) ==> create(k) != SCRIPT_DEPLOYER) ==>
              forall k: U64 :: k <= DeployerNonce(m) ==> create(k) !in out
  {
  }

  /** What a dump means, account by account and slot by slot. */
  lemma DumpContents(
    create: Creator, precompiles: set<Address>, last: U64, m: Accounts, out: Accounts, a: Address, slot: Hash)
    requires IsDump(create, precompiles, last, m, out)
    ensures a in {SCRIPT_DEPLOYER, FORGE_DEPLOYER, HostState.VM_ADDR} + precompiles ==> a !in out
    ensures (exists k: U64 :: k <= last && create(k) == a) ==> a !in out
    ensures (&& a in m
             && a !in {SCRIPT_DEPLOYER, FORGE_DEPLOYER, HostState.VM_ADDR} + precompiles
             && (forall k: U64 :: k <= last ==> create(k) != a)) ==> a in out
    ensures a in out ==>
              && a in m && out[a].code == m[a].code && out[a].balance == m[a].balance && out[a].nonce == m[a].nonce
              && (slot in out[a].storage <==> slot in m[a].storage && m[a].storage[slot] != 0)
              && (slot in out[a].storage ==> out[a].storage[slot] == m[a].storage[slot])
  {
  }

  /** Without a deployer account the nonce reads as zero, and only the first script address is removed. */
  lemma MissingDeployer(create: Creator, m: Accounts)
    requires SCRIPT_DEPLOYER !in m
    ensures LastRemoved(create, 0, DeployerNonce(m)) == 0
  {
  }
}
