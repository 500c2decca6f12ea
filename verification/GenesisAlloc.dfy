/**
 Building the developer genesis: the account dump is copied, then balances are increased in place.
 Balances are heap objects, so what matters is that no balance of the copy is shared, neither with the
 dump nor within the copy.
 */
module GenesisAlloc {
  import opened Prelude

  const PRECOMPILE_COUNT: nat := 256

  const DEV_BALANCE: nat := 0x200000000000000000000000000000000000000000000000000000000000000

  const DEV_ACCOUNTS: seq<Address> := [
    0x14dC79964da2C08b23698B3D3cc7Ca32193d9955,
    0x15d34AAf54267DB7D7c367839AAf71A00a2C6A65,
    0x1CBd3b2770909D4e10f157cABC84C7264073C9Ec,
    0x23618e81E3f5cdF7f54C3d65f7FBc0aBf5B21E8f,
    0x2546BcD3c84621e976D8185a91A922aE77ECEc30,
    0x3C44CdDdB6a900fa2b585dd299e03d12FA4293BC,
    0x70997970C51812dc3A010C7d01b50e0d17dc79C8,
    0x71bE63f3384f5fb98995898A86B02Fb2426c5788,
    0x8626f6940E2eb28930eFb4CeF49B2d1F2C9C1199,
    0x90F79bf6EB2c4f870365E785982E1f101E93b906,
    0x976EA74026E726554dB657fA54763abd0C3a0aa9,
    0x9965507D1a55bcC2695C58ba16FB37d819B0A4dc,
    0xBcd4042DE499D14e55001CcbB24a551F3b954096,
    0xFABB0ac9d68B0B445fB7357272Ff202C5651694a,
    0xa0Ee7A142d267C1f36714E4a8F75612F20a79720,
    0xbDA5747bFD65F08deb54cb465eB87D40e51B197E,
    0xcd3B766CCDd6AE721141F452C550Ca635964ce71,
    0xdD2FD4581271e230360230F9337D5c0430Bf44C0,
    0xdF3e18d64BC6A983f673Ab319CCaE4f1a57C7097,
    0xDe3829A23DF1479438622a08a116E8Eb3f620BB5,
    0xf39Fd6e51aad88F6F4ce6aB8827279cffFb92266,
    0x71562b71999873DB5b286dF957af199Ec94617F7,
    0x3fab184622dc19b6109349b94811493bf2a45362
  ]

  // ---------- values ----------

  datatype AccountValue = AccountValue(code: seq<Byte>, storage: map<Hash, Hash>, balance: int, nonce: U64)

  const EMPTY_ACCOUNT := AccountValue([], map[], 0, 0)

  type Ledger = map<Address, AccountValue>

  function Get(m: Ledger, a: Address): AccountValue {
    if a in m then m[a] else EMPTY_ACCOUNT
  }

  /** One account's balance goes up; an account that did not exist is created. Nothing else changes. */
  function Credit(m: Ledger, a: Address, amount: int): Ledger {
    m[a := Get(m, a).(balance := Get(m, a).balance + amount)]
  }

  function CreditAll(m: Ledger, accounts: seq<Address>, amount: int): Ledger
    decreases |accounts|
  {
    if accounts == [] then m
    else
      var n := |accounts| - 1;
      Credit(CreditAll(m, accounts[..n], amount), accounts[n], amount)
  }

  /** The sum of all balances. */
  ghost function Supply(m: Ledger): int {
    if m == map[] then 0
    else
      var k :| k in m;
      m[k].balance + Supply(m - {k})
  }

  lemma {:induction false} SupplyWithout(m: Ledger, a: Address)
    requires a in m
    ensures Supply(m) == m[a].balance + Supply(m - {a})
    decreases |m|
  {
    var k :| k in m && Supply(m) == m[k].balance + Supply(m - {k});
    if k != a {
      SupplyWithout(m - {k}, a);
      assert a in m - {k} && (m - {k})[a] == m[a];
      SupplyWithout(m - {a}, k);
      assert (m - {k}) - {a} == (m - {a}) - {k};
    }
  }

  lemma CreditSupply(m: Ledger, a: Address, amount: int)
    ensures Supply(Credit(m, a, amount)) == Supply(m) + amount
  {
    var m' := Credit(m, a, amount);
    SupplyWithout(m', a);
    assert m' - {a} == m - {a};
    if a in m {
      SupplyWithout(m, a);
    } else {
      assert m - {a} == m;
    }
  }

  /** Crediting a list of accounts adds exactly the amount times the length of the list. */
  lemma {:induction false} CreditAllSupply(m: Ledger, accounts: seq<Address>, amount: int)
    ensures Supply(CreditAll(m, accounts, amount)) == Supply(m) + |accounts| * amount
    decreases |accounts|
  {
    if accounts != [] {
      var n := |accounts| - 1;
      CreditAllSupply(m, accounts[..n], amount);
      CreditSupply(CreditAll(m, accounts[..n], amount), accounts[n], amount);
      OneMore(n, amount);
    }
  }

  lemma OneMore(k: nat, amount: int)
    ensures (k + 1) * amount == k * amount + amount
  {
  }

  /** How often `a` occurs in `accounts`. */
  function Occurrences(a: Address, accounts: seq<Address>): nat {
    multiset(accounts)[a]
  }

  lemma OccurrencesSnoc(a: Address, accounts: seq<Address>)
    requires accounts != []
    ensures var n := |accounts| - 1;
            Occurrences(a, accounts) == Occurrences(a, accounts[..n]) + if accounts[n] == a then 1 else 0
  {
    assert accounts == accounts[..|accounts| - 1] + [accounts[|accounts| - 1]];
  }

  /** Each account gets the amount once per mention, and keeps its code, storage and nonce. */
  lemma {:induction false} CreditAllAt(m: Ledger, accounts: seq<Address>, amount: int, a: Address)
    ensures Get(CreditAll(m, accounts, amount), a)
         == Get(m, a).(balance := Get(m, a).balance + Occurrences(a, accounts) * amount)
    decreases |accounts|
  {
    if accounts != [] {
      var n := |accounts| - 1;
      CreditAllAt(m, accounts[..n], amount, a);
      OccurrencesSnoc(a, accounts);
      hide Occurrences;
      OneMore(Occurrences(a, accounts[..n]), amount);
    }
  }

  // ---------- objects ----------

  class BigInt {
    var v: int

    constructor (v: int)
      ensures this.v == v
    {
      this.v := v;
    }
  }

  /** An account as Go holds it: the balance is a pointer, possibly nil. */
  datatype Account = Account(code: seq<Byte>, storage: map<Hash, Hash>, balance: BigInt?, nonce: U64)

  type Accounts = map<Address, Account>

  ghost function Balances(m: Accounts): set<BigInt?> {
    set a | a in m :: m[a].balance
  }

  /** The account holds what `v` says; a missing balance counts as zero. */
  ghost predicate Matches(acc: Account, v: AccountValue)
    reads acc.balance
  {
    v == AccountValue(acc.code, acc.storage, if acc.balance == null then 0 else acc.balance.v, acc.nonce)
  }

  /** The accounts `m` hold what `l` says. */
  ghost predicate Holds(m: Accounts, l: Ledger)
    reads Balances(m)
  {
    m.Keys == l.Keys && forall a :: a in m ==> Matches(m[a], l[a])
  }

  /** No two accounts share a balance object. */
  ghost predicate Separate(m: Accounts) {
    forall a, b :: a in m && b in m && a != b && m[a].balance != null ==> m[a].balance != m[b].balance
  }

  /** A deep copy: the same contents in balance objects of its own. */
  method Copy(d: Accounts, ghost l: Ledger) returns (out: Accounts)
    requires Holds(d, l) && forall a :: a in d ==> d[a].balance != null
    ensures Holds(out, l) && Separate(out)
    ensures forall a :: a in out ==> out[a].balance != null && fresh(out[a].balance)
  {
    out := map[];
    var todo := d.Keys;
    while todo != {}
      invariant todo <= d.Keys && out.Keys == d.Keys - todo
      invariant forall a :: a in out ==> out[a].balance != null && fresh(out[a].balance)
      invariant forall a :: a in out ==>
                  out[a].code == d[a].code && out[a].storage == d[a].storage && out[a].nonce == d[a].nonce
      invariant forall a :: a in out ==> out[a].balance.v == d[a].balance.v
      invariant Separate(out)
    {
      var k :| k in todo;
      var balance := new BigInt(d[k].balance.v);
      out := out[k := Account(d[k].code, d[k].storage, balance, d[k].nonce)];
      todo := todo - {k};
    }
  }

  class Genesis {
    var alloc: Accounts
    ghost var ledger: Ledger

    /** `ledger` is what the accounts hold, and no balance object is shared. */
    ghost predicate Valid()
      reads this, Balances(alloc)
    {
      Separate(alloc) && Holds(alloc, ledger)
    }

    constructor (alloc: Accounts, ghost ledger: Ledger)
      requires Separate(alloc) && Holds(alloc, ledger)
      ensures Valid() && this.alloc == alloc && this.ledger == ledger
    {
      this.alloc, this.ledger := alloc, ledger;
    }

    /** Makes sure that the account exists and has a balance object. */
    method EnsureBalance(account: Address)
      requires Valid()
      modifies this
      ensures Valid() && fresh(Balances(alloc) - old(Balances(alloc)))
      ensures account in alloc && alloc[account].balance != null
      ensures ledger == old(ledger)[account := Get(old(ledger), account)]
    {
      var acc := if account in alloc then alloc[account] else Account([], map[], null, 0);
      if acc.balance == null {
        var zero := new BigInt(0);
        acc := acc.(balance := zero);
        alloc := alloc[account := acc];
      }
      ledger := ledger[account := Get(ledger, account)];
    }

    /** Adds to one account's balance in place, creating what is missing. */
    method AddBalance(account: Address, amount: int)
      requires Valid()
      modifies this, Balances(alloc)
      ensures Valid() && fresh(Balances(alloc) - old(Balances(alloc)))
      ensures ledger == Credit(old(ledger), account, amount)
    {
      EnsureBalance(account);
      var balance := alloc[account].balance;
      assert balance in Balances(alloc);
      balance.v := balance.v + amount;
      assert forall a :: a in alloc && a != account ==> Matches(alloc[a], ledger[a]);
      CreditExisting(old(ledger), account, amount);
      ghost var before := ledger;
      ledger := Credit(ledger, account, amount);
      forall a | a in alloc ensures Matches(alloc[a], ledger[a]) {
        assert a != account ==> Matches(alloc[a], before[a]) && ledger[a] == before[a];
      }
    }

    method FundDevAccounts()
      requires Valid()
      modifies this, Balances(alloc)
      ensures Valid() && fresh(Balances(alloc) - old(Balances(alloc)))
      ensures ledger == CreditAll(old(ledger), DEV_ACCOUNTS, DEV_BALANCE)
    {
      hide CreditAll;
      CreditNone(ledger, DEV_ACCOUNTS, DEV_BALANCE);
      for i := 0 to |DEV_ACCOUNTS|
        invariant Valid() && fresh(Balances(alloc) - old(Balances(alloc)))
        invariant ledger == CreditAll(old(ledger), DEV_ACCOUNTS[..i], DEV_BALANCE)
      {
        AddBalance(DEV_ACCOUNTS[i], DEV_BALANCE);
        CreditNext(old(ledger), DEV_ACCOUNTS, i, DEV_BALANCE);
      }
      assert DEV_ACCOUNTS[..|DEV_ACCOUNTS|] == DEV_ACCOUNTS;
    }

    method SetPrecompileBalances()
      requires Valid()
      modifies this, Balances(alloc)
      ensures Valid() && fresh(Balances(alloc) - old(Balances(alloc)))
      ensures ledger == CreditAll(old(ledger), Precompiles(), 1)
    {
      ghost var all := Precompiles();
      assert forall i :: 0 <= i < PRECOMPILE_COUNT ==> all[i] == i;
      hide CreditAll, Precompiles, Separate, Holds;
      CreditNone(ledger, all, 1);
      for i := 0 to PRECOMPILE_COUNT
        invariant Valid() && fresh(Balances(alloc) - old(Balances(alloc)))
        invariant ledger == CreditAll(old(ledger), all[..i], 1)
      {
        AddBalance(i, 1);
        CreditNext(old(ledger), all, i, 1);
      }
      assert all[..PRECOMPILE_COUNT] == all;
    }

    /** Both credits, the first one on request. */
    method CreditAccounts(fundDevAccounts: bool)
      requires Valid()
      modifies this, Balances(alloc)
      ensures Valid() && fresh(Balances(alloc) - old(Balances(alloc)))
      ensures ledger == GenesisLedger(old(ledger), fundDevAccounts)
    {
      hide CreditAll, Separate, Holds;
      if fundDevAccounts {
        FundDevAccounts();
      }
      SetPrecompileBalances();
    }
  }

  /** The addresses 0 to 255. */
  function Precompiles(): (r: seq<Address>)
    ensures |r| == PRECOMPILE_COUNT
  {
    seq(PRECOMPILE_COUNT, i => i)
  }

  lemma CreditNext(m: Ledger, accounts: seq<Address>, i: nat, amount: int)
    requires i < |accounts|
    ensures CreditAll(m, accounts[..i + 1], amount) == Credit(CreditAll(m, accounts[..i], amount), accounts[i], amount)
  {
    assert accounts[..i + 1][..i] == accounts[..i];
  }

  lemma CreditExisting(m: Ledger, a: Address, amount: int)
    ensures Credit(m[a := Get(m, a)], a, amount) == Credit(m, a, amount)
  {
  }

  lemma CreditNone(m: Ledger, accounts: seq<Address>, amount: int)
    ensures CreditAll(m, accounts[..0], amount) == m
  {
  }

  /** What the genesis holds, given what the dump holds. */
  function GenesisLedger(dump: Ledger, fundDevAccounts: bool): Ledger {
    CreditAll(if fundDevAccounts then CreditAll(dump, DEV_ACCOUNTS, DEV_BALANCE) else dump, Precompiles(), 1)
  }

  lemma {:induction false} PrecompilesOccur(a: Address, n: nat)
    requires n <= PRECOMPILE_COUNT
    ensures Occurrences(a, Precompiles()[..n]) == if a < n then 1 else 0
  {
    if n > 0 {
      PrecompilesOccur(a, n - 1);
      OccurrencesSnoc(a, Precompiles()[..n]);
      assert Precompiles()[..n][..n - 1] == Precompiles()[..n - 1];
    }
  }

  /**
   What each account of the genesis holds: what the dump says, plus the development balance for each mention
   among the development accounts, plus one wei for the addresses 0 to 255.
   */
  lemma GenesisAccount(dump: Ledger, fundDevAccounts: bool, a: Address)
    ensures Get(GenesisLedger(dump, fundDevAccounts), a)
         == Get(dump, a).(balance := Get(dump, a).balance
                                     + (if fundDevAccounts then Occurrences(a, DEV_ACCOUNTS) * DEV_BALANCE else 0)
                                     + (if a < 256 then 1 else 0))
  {
    hide CreditAll, Occurrences;
    PrecompilesOccur(a, PRECOMPILE_COUNT);
    assert Precompiles()[..PRECOMPILE_COUNT] == Precompiles();
    CreditAllAt(dump, DEV_ACCOUNTS, DEV_BALANCE, a);
    CreditAllAt(if fundDevAccounts then CreditAll(dump, DEV_ACCOUNTS, DEV_BALANCE) else dump, Precompiles(), 1, a);
  }

  /** An account that only the genesis has is otherwise empty. */
  lemma NewGenesisAccount(dump: Ledger, fundDevAccounts: bool, a: Address)
    requires a !in dump
    ensures var acc := Get(GenesisLedger(dump, fundDevAccounts), a); acc.code == [] && acc.storage == map[] && acc.nonce == 0
  {
    GenesisAccount(dump, fundDevAccounts, a);
  }

  /** The genesis has the dump's supply, the development accounts' funds, and one wei per precompile. */
  lemma GenesisSupply(dump: Ledger, fundDevAccounts: bool)
    ensures Supply(GenesisLedger(dump, fundDevAccounts))
         == Supply(dump) + (if fundDevAccounts then |DEV_ACCOUNTS| * DEV_BALANCE else 0) + PRECOMPILE_COUNT
  {
    hide CreditAll, Supply;
    if fundDevAccounts {
      CreditAllSupply(dump, DEV_ACCOUNTS, DEV_BALANCE);
      CreditAllSupply(CreditAll(dump, DEV_ACCOUNTS, DEV_BALANCE), Precompiles(), 1);
    } else {
      CreditAllSupply(dump, Precompiles(), 1);
    }
  }

  /** The accounts part of building the developer genesis. The dump keeps all it holds. */
  method BuildL1DeveloperGenesis(dump: Accounts, fundDevAccounts: bool, ghost l: Ledger) returns (genesis: Genesis)
    requires Holds(dump, l) && forall a :: a in dump ==> dump[a].balance != null
    ensures Holds(dump, l)
    ensures genesis.Valid() && genesis.ledger == GenesisLedger(l, fundDevAccounts)
  {
    hide Separate, GenesisLedger;
    var copy := Copy(dump, l);
    genesis := new Genesis(copy, l);
    assert fresh(genesis) && fresh(Balances(genesis.alloc));
    genesis.CreditAccounts(fundDevAccounts);
    assert forall a :: a in dump ==> dump[a].balance.v == old(dump[a].balance.v);
    assert forall a :: a in dump ==> old(Matches(dump[a], l[a]));
  }
}
