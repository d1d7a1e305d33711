/**
 The genesis repair of ensure_genesis.py: ten checks in order, each fixing what it
 finds, over one genesis document. Field values the checks neither read nor write
 are kept in `rest` strings; an absent optional string is "".
 */
module GenesisRepair {
  import opened Bech32
  import opened GenesisCodec
  import opened Decimal
  import opened Text
  import Numerals

  datatype Coin = Coin(denom: string, amount: string)

  // An amount of the supply list is a JSON string or a JSON number; Python finds the two unequal.
  datatype JsonAmount = Quoted(text: string) | Number(n: nat)
  datatype Supplied = Supplied(denom: string, amount: JsonAmount)

  datatype Balance = Balance(address: string, coins: seq<Coin>)
  datatype TopValidator = TopValidator(address: string, pubKeyType: string, pubKey: string, power: string, name: string)
  // OtherHeight is any value Python does not find equal to an integer.
  datatype Height = NoHeight | IntHeight(n: int) | OtherHeight(text: string)
  datatype Validator = Validator(operator: string, key: string, status: string, tokens: string, rest: string)
  datatype Delegation = Delegation(delegator: string, validator: string, shares: string)
  datatype Power = Power(address: string, power: string)
  datatype Account = Account(address: string, baseAddress: string, rest: string)
  datatype SigningInfo = SigningInfo(address: string, rest: string)

  datatype Genesis = Genesis(
    topValidators: seq<TopValidator>, initialHeight: Height, genTxs: seq<string>,
    validators: seq<Validator>, delegations: seq<Delegation>,
    lastPowers: seq<Power>, lastTotalPower: string,
    accounts: seq<Account>, balances: seq<Balance>, supply: seq<Supplied>,
    signingInfos: seq<SigningInfo>, wallets: seq<string>, rest: string)

  // What main derives from priv_validator_key.json: the hex address and public key,
  // and the consensus, bonded-pool and not-bonded-pool addresses.
  datatype Env = Env(valHex: string, pub: string, consAddr: string, bondedPool: string, notBonded: string)

  // sys.exit(1) when no delegator can be identified; Raised for an uncaught exception.
  datatype Result = Done(modified: bool) | Exited | Raised

  datatype Found = Nobody | Found(address: string)

  const BONDED: string := "BOND_STATUS_BONDED"
  const DEFAULT_BOND: string := "1000000000"
  const STAKE: string := "stake"

  // ---------- Reading the document ----------

  predicate IsAmount(s: string) {
    s != "" && AreDigits(s)
  }

  // int(s) of an amount; WellFormed documents hold nothing else.
  function Amount(s: string): nat {
    if IsAmount(s) then Value(s) else 0
  }

  ghost predicate WellFormed(g: Genesis) {
    && (forall b, c :: b in g.balances && c in b.coins ==> IsAmount(c.amount))
    && (forall v :: v in g.validators ==> IsAmount(v.tokens))
  }

  predicate HoldsStake(b: Balance) {
    exists i :: 0 <= i < |b.coins| && b.coins[i].denom == STAKE
  }

  predicate IsDelegator(b: Balance, g: Genesis, env: Env) {
    b.address != env.bondedPool && b.address != env.notBonded && HoldsStake(b) && b.address !in g.wallets
  }

  // The first account, outside the two pools, that holds stake and no wallet balance.
  function FindDelegator(balances: seq<Balance>, g: Genesis, env: Env): Found {
    if balances == [] then Nobody
    else if IsDelegator(balances[0], g, env) then Found(balances[0].address)
    else FindDelegator(balances[1..], g, env)
  }

  function FirstStake(coins: seq<Coin>): nat
  {
    if coins == [] then 0
    else if coins[0].denom == STAKE then Amount(coins[0].amount)
    else FirstStake(coins[1..])
  }

  // The stake of an address: a later entry of the same address hides an earlier one.
  function StakeOf(balances: seq<Balance>, address: string): nat
  {
    if balances == [] then 0
    else
      var last := balances[|balances| - 1];
      if last.address == address then FirstStake(last.coins) else StakeOf(balances[..|balances| - 1], address)
  }

  function CoinTotal(coins: seq<Coin>, denom: string): nat
  {
    if coins == [] then 0
    else
      var last := coins[|coins| - 1];
      CoinTotal(coins[..|coins| - 1], denom) + (if last.denom == denom then Amount(last.amount) else 0)
  }

  // The sum of all balances in one denom.
  function Total(balances: seq<Balance>, denom: string): nat
  {
    if balances == [] then 0
    else Total(balances[..|balances| - 1], denom) + CoinTotal(balances[|balances| - 1].coins, denom)
  }

  function CoinDenoms(coins: seq<Coin>): set<string> {
    set c | c in coins :: c.denom
  }

  function Denoms(balances: seq<Balance>): set<string> {
    if balances == [] then {} else Denoms(balances[..|balances| - 1]) + CoinDenoms(balances[|balances| - 1].coins)
  }

  // The supply list as a dictionary: a later entry wins.
  function SupplyMap(supply: seq<Supplied>): map<string, JsonAmount> {
    if supply == [] then map[]
    else SupplyMap(supply[..|supply| - 1])[supply[|supply| - 1].denom := supply[|supply| - 1].amount]
  }

  // What check 9 compares the supply with: every denom that occurs, with the numeral of
  // its balance sum as text.
  function ExpectedSupply(balances: seq<Balance>): map<string, JsonAmount> {
    map d | d in Denoms(balances) :: Quoted(Numeral(Total(balances, d)))
  }

  // What check 9 writes: the same sums, as numbers.
  function WrittenSupply(balances: seq<Balance>): map<string, JsonAmount> {
    map d | d in Denoms(balances) :: Number(Total(balances, d))
  }

  // In strictly ascending order of denoms, so that the map determines the list.
  predicate IsSorted(supply: seq<Supplied>) {
    forall i, j :: 0 <= i < j < |supply| ==> Less(supply[i].denom, supply[j].denom)
  }

  // int(s["amount"])
  function NumberOf(a: JsonAmount): nat {
    match a
    case Quoted(text) => Amount(text)
    case Number(n) => n
  }

  function AuthAddress(a: Account): string {
    if a.address != "" then a.address else a.baseAddress
  }

  predicate HasAccount(accounts: seq<Account>, address: string) {
    exists i :: 0 <= i < |accounts| && AuthAddress(accounts[i]) == address
  }

  predicate HasSigningInfo(infos: seq<SigningInfo>, address: string) {
    exists i :: 0 <= i < |infos| && infos[i].address == address
  }

  function ExpectedTop(env: Env): TopValidator {
    TopValidator(env.valHex, "tendermint/PubKeyEd25519", env.pub, "1", "validator1")
  }

  // The balance entries of everybody but the bonded pool, in order.
  function NonPool(balances: seq<Balance>, pool: string): seq<Balance> {
    if balances == [] then []
    else
      var last := balances[|balances| - 1];
      NonPool(balances[..|balances| - 1], pool) + (if last.address != pool then [last] else [])
  }

  // ---------- What these readings mean ----------

  // Who may be taken for the delegator: an account outside the pools that holds a stake
  // coin and no wallet balance.
  lemma {:induction false} DelegatorExactly(b: Balance, g: Genesis, env: Env)
    ensures IsDelegator(b, g, env)
            <==> b.address != env.bondedPool && b.address != env.notBonded && b.address !in g.wallets
                 && exists i :: 0 <= i < |b.coins| && b.coins[i].denom == "stake"
  {}

  // The one found is the first of them, and nobody is found when there is none.
  lemma {:induction false} FoundIsFirst(balances: seq<Balance>, g: Genesis, env: Env, i: nat)
    requires i <= |balances| && forall j :: 0 <= j < i ==> !IsDelegator(balances[j], g, env)
    ensures i == |balances| ==> FindDelegator(balances, g, env) == Nobody
    ensures i < |balances| && IsDelegator(balances[i], g, env) ==> FindDelegator(balances, g, env) == Found(balances[i].address)
  {
    if i != 0 {
      FoundIsFirst(balances[1..], g, env, i - 1);
    }
  }

  // The stake of an address is the first stake coin of its last entry.
  lemma {:induction false} StakeExactly(balances: seq<Balance>, i: nat, k: nat)
    requires i < |balances| && forall j :: i < j < |balances| ==> balances[j].address != balances[i].address
    requires k <= |balances[i].coins| && forall j :: 0 <= j < k ==> balances[i].coins[j].denom != "stake"
    requires k < |balances[i].coins| ==> balances[i].coins[k].denom == "stake"
    ensures StakeOf(balances, balances[i].address) == if k < |balances[i].coins| then Amount(balances[i].coins[k].amount) else 0
  {
    if i == |balances| - 1 {
      FirstStakeExactly(balances[i].coins, k);
    } else {
      StakeExactly(balances[..|balances| - 1], i, k);
    }
  }

  lemma {:induction false} FirstStakeExactly(coins: seq<Coin>, k: nat)
    requires k <= |coins| && forall j :: 0 <= j < k ==> coins[j].denom != "stake"
    requires k < |coins| ==> coins[k].denom == "stake"
    ensures FirstStake(coins) == if k < |coins| then Amount(coins[k].amount) else 0
  {
    if k != 0 {
      FirstStakeExactly(coins[1..], k - 1);
    }
  }

  // Totals add up over entries and over coins, and one coin counts for its own denom.
  lemma {:induction false} TotalAddsUp(a: seq<Balance>, b: seq<Balance>, denom: string)
    ensures Total(a + b, denom) == Total(a, denom) + Total(b, denom)
  {
    if b == [] {
      assert a + b == a;
    } else {
      assert (a + b)[..|a + b| - 1] == a + b[..|b| - 1];
      TotalAddsUp(a, b[..|b| - 1], denom);
    }
  }

  lemma {:induction false} CoinsAddUp(a: seq<Coin>, b: seq<Coin>, denom: string)
    ensures CoinTotal(a + b, denom) == CoinTotal(a, denom) + CoinTotal(b, denom)
  {
    if b == [] {
      assert a + b == a;
    } else {
      assert (a + b)[..|a + b| - 1] == a + b[..|b| - 1];
      CoinsAddUp(a, b[..|b| - 1], denom);
    }
  }

  lemma {:induction false} TotalOfCoin(address: string, c: Coin, denom: string)
    ensures Total([Balance(address, [c])], denom) == if c.denom == denom then Amount(c.amount) else 0
  {
    var coins := [c];
    var balances := [Balance(address, coins)];
    assert coins[..0] == [] && balances[..0] == [];
    assert CoinTotal(coins, denom) == CoinTotal(coins[..0], denom) + if c.denom == denom then Amount(c.amount) else 0;
  }

  // The denoms are those of the coins.
  lemma {:induction false} DenomsExactly(balances: seq<Balance>, denom: string)
    ensures denom in Denoms(balances) <==> exists i, k :: 0 <= i < |balances| && 0 <= k < |balances[i].coins| && balances[i].coins[k].denom == denom
  {
    if balances != [] {
      var n := |balances| - 1;
      DenomsExactly(balances[..n], denom);
      forall i | 0 <= i < n
        ensures balances[..n][i] == balances[i]
      {
      }
      if denom in CoinDenoms(balances[n].coins) {
        var c :| c in balances[n].coins && c.denom == denom;
        var k :| 0 <= k < |balances[n].coins| && balances[n].coins[k] == c;
        assert balances[n].coins[k].denom == denom;
      }
    }
  }

  // An account counts under its address, or under that of its base account when it has none.
  lemma {:induction false} AccountExactly(accounts: seq<Account>, address: string)
    requires address != ""
    ensures HasAccount(accounts, address)
            <==> exists i :: 0 <= i < |accounts| && (accounts[i].address == address || (accounts[i].address == "" && accounts[i].baseAddress == address))
  {
    if HasAccount(accounts, address) {
      var i :| 0 <= i < |accounts| && AuthAddress(accounts[i]) == address;
      assert accounts[i].address == address || (accounts[i].address == "" && accounts[i].baseAddress == address);
    }
    if i :| 0 <= i < |accounts| && (accounts[i].address == address || (accounts[i].address == "" && accounts[i].baseAddress == address)) {
      assert AuthAddress(accounts[i]) == address;
    }
  }

  // Leaving out the pool keeps every other entry, in order, and nothing of the pool.
  lemma {:induction false} NonPoolOfConcat(a: seq<Balance>, b: seq<Balance>, pool: string)
    ensures NonPool(a + b, pool) == NonPool(a, pool) + NonPool(b, pool)
  {
    if b == [] {
      assert a + b == a;
    } else {
      assert (a + b)[..|a + b| - 1] == a + b[..|b| - 1];
      NonPoolOfConcat(a, b[..|b| - 1], pool);
    }
  }

  lemma {:induction false} NonPoolOfEntry(b: Balance, pool: string)
    ensures NonPool([b], pool) == if b.address == pool then [] else [b]
  {
    assert [b][..0] == [];
  }

  // ---------- What a repair aims at ----------

  // Checks 1 to 6 have nothing to fix.
  ghost predicate StakingIsClean(g: Genesis, env: Env) {
    && g.topValidators == [ExpectedTop(env)]
    && g.initialHeight == IntHeight(1)
    && g.genTxs == []
    && g.validators != [] && g.validators[0].key == env.pub && g.validators[0].status == BONDED
    && DelegatesTo(g, g.validators[0].operator) && HasFirstPower(g, g.validators[0].operator)
  }

  // Checks 7, 8 and 10 have nothing to fix: the pool holds the bond.
  ghost predicate BankIsFixed(g: Genesis, env: Env)
    requires g.validators != []
  {
    && HasAccount(g.accounts, env.bondedPool) && HasAccount(g.accounts, env.notBonded)
    && StakeOf(g.balances, env.bondedPool) == Amount(g.validators[0].tokens)
    && HasSigningInfo(g.signingInfos, env.consAddr)
  }

  // Check 9 has nothing to fix.
  predicate SupplyIsText(g: Genesis) {
    SupplyMap(g.supply) == ExpectedSupply(g.balances)
  }

  // The supply is what check 9 writes.
  predicate SupplyIsWritten(g: Genesis) {
    SupplyMap(g.supply) == WrittenSupply(g.balances) && IsSorted(g.supply)
  }

  // The supply, read as numbers, is the balance sums.
  ghost predicate SupplyIsSum(g: Genesis) {
    && SupplyMap(g.supply).Keys == Denoms(g.balances)
    && forall d :: d in SupplyMap(g.supply) ==> NumberOf(SupplyMap(g.supply)[d]) == Total(g.balances, d)
  }

  // No check has anything to fix.
  ghost predicate Clean(g: Genesis, env: Env) {
    StakingIsClean(g, env) && BankIsFixed(g, env) && SupplyIsText(g)
  }

  // What a repair reaches: nothing to fix but, maybe, the form of the supply amounts.
  ghost predicate Repaired(g: Genesis, env: Env) {
    StakingIsClean(g, env) && BankIsFixed(g, env) && SupplyIsSum(g) && (SupplyIsText(g) || SupplyIsWritten(g))
  }

  // The operator address and bond amount a run works with.
  function Bond(g: Genesis): string {
    if g.validators != [] then g.validators[0].tokens else DEFAULT_BOND
  }

  predicate Exits(g: Genesis, env: Env) {
    g.validators == [] && (FindDelegator(g.balances, g, env) == Nobody || FindDelegator(g.balances, g, env) == Found(""))
  }

  // No operator can be derived, or check 5 needs a delegator that was never assigned.
  predicate Raises(g: Genesis, env: Env) {
    && !Exits(g, env)
    && if g.validators == [] then DecodeRaw(FindDelegator(g.balances, g, env).address) == ValueError
       else g.delegations == [] && FindDelegator(g.balances, g, env) == Nobody
  }

  // The operator: the one on file, or the delegator's bytes under the operator prefix.
  predicate IsOperator(g: Genesis, env: Env, operator: string) {
    if g.validators != [] then operator == g.validators[0].operator
    else
      var delegator := FindDelegator(g.balances, g, env);
      delegator.Found? && DecodeRaw(delegator.address).Raw?
      && operator == Encode("mallvaloper", ToWords(DecodeRaw(delegator.address).bytes))
  }

  // The delegator a new delegation gets: the one on file, or the one the balances show.
  function DelegatorOf(g: Genesis, env: Env): Found {
    if g.delegations != [] then Found(g.delegations[0].delegator) else FindDelegator(g.balances, g, env)
  }

  // Who fails: with i the place of the first delegator, or the end of the list when there is none.
  lemma {:induction false} FailsExactly(g: Genesis, env: Env, i: nat)
    requires i <= |g.balances| && (i < |g.balances| ==> IsDelegator(g.balances[i], g, env))
    requires forall j :: 0 <= j < i ==> !IsDelegator(g.balances[j], g, env)
    ensures Exits(g, env) <==> g.validators == [] && (i == |g.balances| || g.balances[i].address == "")
    ensures Raises(g, env)
            <==> if g.validators == [] then i < |g.balances| && g.balances[i].address != "" && DecodeRaw(g.balances[i].address) == ValueError
                 else g.delegations == [] && i == |g.balances|
  {
    FoundIsFirst(g.balances, g, env, i);
  }

  // Without a validator on file the operator has the bytes of the first delegator's address.
  lemma {:induction false} OperatorExactly(g: Genesis, env: Env, i: nat, prefix: string, bytes: seq<Numerals.Byte>, operator: string)
    requires g.validators == [] && i < |g.balances| && IsDelegator(g.balances[i], g, env)
    requires forall j :: 0 <= j < i ==> !IsDelegator(g.balances[j], g, env)
    requires g.balances[i].address == Encode(prefix, ToWords(bytes))
    ensures IsOperator(g, env, operator) <==> operator == Encode("mallvaloper", ToWords(bytes))
  {
    FoundIsFirst(g.balances, g, env, i);
    RawRoundTrip(prefix, bytes);
  }

  function FullBond(operator: string, delegator: string, bond: string): Delegation {
    Delegation(delegator, operator, bond + ".000000000000000000")
  }

  // Checks 4 to 6 leave alone what they find in order, and replace the rest by the bond of the operator.
  ghost predicate FixesStaking(before: Genesis, after: Genesis, env: Env, operator: string, delegator: string, bond: string) {
    && (ValidatorIsGood(before, env) ==> after.validators == before.validators)
    && (if DelegatesTo(before, operator) then after.delegations == before.delegations
        else after.delegations == [FullBond(operator, delegator, bond)])
    && (if HasFirstPower(before, operator)
        then after.lastPowers == before.lastPowers && after.lastTotalPower == before.lastTotalPower
        else after.lastPowers == [Power(operator, "1")] && after.lastTotalPower == "1")
  }

  // Checks 7 to 10 likewise.
  ghost predicate FixesBank(before: Genesis, after: Genesis, env: Env) {
    && (HasAccount(before.accounts, env.bondedPool) && HasAccount(before.accounts, env.notBonded) ==> after.accounts == before.accounts)
    && (if SupplyMap(before.supply) == ExpectedSupply(after.balances) then after.supply == before.supply else SupplyIsWritten(after))
    && (if HasSigningInfo(before.signingInfos, env.consAddr) then after.signingInfos == before.signingInfos else |after.signingInfos| == 1)
  }

  // The balances with the pool holding exactly the bond.
  function WithPool(balances: seq<Balance>, pool: string, bond: string): seq<Balance> {
    NonPool(balances, pool) + [Balance(pool, [Coin(STAKE, bond)])]
  }

  // The balances a repair ends with.
  function FinalBalances(g: Genesis, env: Env): seq<Balance> {
    if StakeOf(g.balances, env.bondedPool) == Amount(Bond(g)) then g.balances else WithPool(g.balances, env.bondedPool, Bond(g))
  }

  // What a repair keeps.
  ghost predicate Keeps(before: Genesis, after: Genesis, env: Env) {
    && after.wallets == before.wallets && after.rest == before.rest
    && before.accounts <= after.accounts
    && after.balances == FinalBalances(before, env)
    && NonPool(after.balances, env.bondedPool) == NonPool(before.balances, env.bondedPool)
    && Bond(after) == Bond(before)
    && after.validators != [] && IsOperator(before, env, after.validators[0].operator)
    && DelegatorOf(before, env).Found?
    && FixesStaking(before, after, env, after.validators[0].operator, DelegatorOf(before, env).address, Bond(before))
    && FixesBank(before, after, env)
  }

  // ---------- The checks ----------

  method SearchDelegator(g: Genesis, env: Env) returns (found: Found)
    ensures found == FindDelegator(g.balances, g, env)
  {
    for i := 0 to |g.balances|
      invariant FindDelegator(g.balances[i..], g, env) == FindDelegator(g.balances, g, env)
    {
      assert g.balances[i..][1..] == g.balances[i + 1..];
      if IsDelegator(g.balances[i], g, env) {
        return Found(g.balances[i].address);
      }
    }
    found := Nobody;
  }

  // Checks 1 to 3: the top-level validators, the initial height, the gentxs.
  method FixHeader(g: Genesis, env: Env) returns (r: Genesis, modified: bool)
    ensures r == g.(topValidators := [TopValidator(env.valHex, "tendermint/PubKeyEd25519", env.pub, "1", "validator1")],
                    initialHeight := IntHeight(1), genTxs := [])
    ensures modified <==> r != g
  {
    r, modified := g, false;
    if r.topValidators != [ExpectedTop(env)] {
      r := r.(topValidators := [ExpectedTop(env)]);
      modified := true;
    }
    if r.initialHeight != IntHeight(1) {
      r := r.(initialHeight := IntHeight(1));
      modified := true;
    }
    if r.genTxs != [] {
      r := r.(genTxs := []);
      modified := true;
    }
  }

  predicate ValidatorIsGood(g: Genesis, env: Env) {
    g.validators != [] && g.validators[0].key == env.pub && g.validators[0].status == BONDED
  }

  // Check 4: the staking validator.
  method FixValidator(g: Genesis, env: Env, operator: string, bond: string) returns (r: Genesis, modified: bool)
    ensures modified <==> !ValidatorIsGood(g, env)
    ensures r == if modified then g.(validators := r.validators) else g
    ensures modified ==> |r.validators| == 1 && r.validators[0].operator == operator && r.validators[0].tokens == bond
    ensures modified ==> r.validators[0].rest == "delegator_shares " + bond + ".000000000000000000, 10% commission"
    ensures r.validators[0].key == env.pub && r.validators[0].status == "BOND_STATUS_BONDED"
    ensures ValidatorIsGood(r, env)
  {
    if g.validators == [] || g.validators[0].key != env.pub || g.validators[0].status != BONDED {
      var v := Validator(operator, env.pub, BONDED, bond, "delegator_shares " + bond + ".000000000000000000, 10% commission");
      return g.(validators := [v]), true;
    }
    return g, false;
  }

  predicate DelegatesTo(g: Genesis, operator: string) {
    g.delegations != [] && g.delegations[0].validator == operator
  }

  predicate HasFirstPower(g: Genesis, operator: string) {
    g.lastPowers != [] && g.lastPowers[0].address == operator
  }

  function TotalPower(powers: seq<Power>): nat {
    if powers == [] then 0 else TotalPower(powers[..|powers| - 1]) + Amount(powers[|powers| - 1].power)
  }

  // The total on file is the sum of the powers.
  predicate PowersAddUp(powers: seq<Power>, total: string) {
    IsAmount(total) && Amount(total) == TotalPower(powers)
  }

  // Check 5: the delegation.
  method FixDelegation(g: Genesis, operator: string, delegator: string, bond: string) returns (r: Genesis, modified: bool)
    ensures DelegatesTo(r, operator)
    ensures modified <==> !DelegatesTo(g, operator)
    ensures r == g.(delegations := r.delegations) && (!modified ==> r == g)
    ensures modified ==> r.delegations == [FullBond(operator, delegator, bond)]
    ensures modified ==> r.delegations == [Delegation(delegator, operator, bond + "." + Zeros(18))]
  {
    assert ".000000000000000000" == "." + Zeros(18);
    assert bond + ".000000000000000000" == bond + "." + Zeros(18);
    if g.delegations == [] || g.delegations[0].validator != operator {
      return g.(delegations := [Delegation(delegator, operator, bond + ".000000000000000000")]), true;
    }
    return g, false;
  }

  // Check 6: the last validator powers.
  method FixPowers(g: Genesis, operator: string) returns (r: Genesis, modified: bool)
    ensures HasFirstPower(r, operator)
    ensures modified <==> !HasFirstPower(g, operator)
    ensures r == g.(lastPowers := r.lastPowers, lastTotalPower := r.lastTotalPower) && (!modified ==> r == g)
    ensures modified ==> r.lastPowers == [Power(operator, "1")] && r.lastTotalPower == "1" && PowersAddUp(r.lastPowers, r.lastTotalPower)
  {
    if g.lastPowers == [] || g.lastPowers[0].address != operator {
      r := g.(lastPowers := [Power(operator, "1")], lastTotalPower := "1");
      assert r.lastPowers[..0] == [];
      return r, true;
    }
    return g, false;
  }

  // Check 7: the module accounts of the two pools.
  method FixAccounts(g: Genesis, env: Env) returns (r: Genesis, modified: bool)
    ensures r == g.(accounts := r.accounts) && g.accounts <= r.accounts
    ensures HasAccount(r.accounts, env.bondedPool) && HasAccount(r.accounts, env.notBonded)
    ensures modified <==> !(HasAccount(g.accounts, env.bondedPool) && HasAccount(g.accounts, env.notBonded))
    ensures !modified ==> r == g
    ensures r.accounts == g.accounts
              + (if HasAccount(g.accounts, env.bondedPool) then [] else [Account("", env.bondedPool, "bonded_tokens_pool")])
              + (if HasAccount(g.accounts, env.notBonded) then [] else [Account("", env.notBonded, "not_bonded_tokens_pool")])
  {
    var accounts := g.accounts;
    modified := false;
    if !HasAccount(g.accounts, env.bondedPool) {
      accounts := accounts + [Account("", env.bondedPool, "bonded_tokens_pool")];
      assert AuthAddress(accounts[|accounts| - 1]) == env.bondedPool;
      modified := true;
    }
    assert HasAccount(accounts, env.bondedPool);
    ghost var withBonded := accounts;
    if !HasAccount(g.accounts, env.notBonded) {
      accounts := accounts + [Account("", env.notBonded, "not_bonded_tokens_pool")];
      assert AuthAddress(accounts[|accounts| - 1]) == env.notBonded;
      modified := true;
    } else {
      MoreAccounts(g.accounts, accounts, env.notBonded);
    }
    MoreAccounts(withBonded, accounts, env.bondedPool);
    r := g.(accounts := accounts);
  }

  lemma {:induction false} MoreAccounts(a: seq<Account>, b: seq<Account>, address: string)
    requires a <= b && HasAccount(a, address)
    ensures HasAccount(b, address)
  {}

  // Check 8: the stake of the bonded pool.
  method FixPool(g: Genesis, env: Env, bond: string) returns (r: Genesis, modified: bool)
    requires IsAmount(bond)
    ensures modified <==> StakeOf(g.balances, env.bondedPool) != Amount(bond)
    ensures r == if modified then g.(balances := WithPool(g.balances, env.bondedPool, bond)) else g
    ensures modified ==> r.balances == NonPool(g.balances, env.bondedPool) + [Balance(env.bondedPool, [Coin("stake", bond)])]
    ensures StakeOf(r.balances, env.bondedPool) == Amount(bond)
    ensures NonPool(r.balances, env.bondedPool) == NonPool(g.balances, env.bondedPool)
    ensures WellFormed(g) ==> WellFormed(r)
  {
    var stake := ReadStake(g.balances, env.bondedPool);
    if stake == Amount(bond) {
      return g, false;
    }
    var kept: seq<Balance> := [];
    for i := 0 to |g.balances|
      invariant kept == NonPool(g.balances[..i], env.bondedPool)
    {
      assert g.balances[..i + 1][..i] == g.balances[..i];
      if g.balances[i].address != env.bondedPool {
        kept := kept + [g.balances[i]];
      }
    }
    assert g.balances[..|g.balances|] == g.balances;
    PoolIsSet(g.balances, env.bondedPool, bond);
    PoolIsWellFormed(g, env.bondedPool, bond);
    return g.(balances := kept + [Balance(env.bondedPool, [Coin(STAKE, bond)])]), true;
  }

  // bank_map and the first stake coin under the pool's address.
  method ReadStake(balances: seq<Balance>, pool: string) returns (stake: nat)
    ensures stake == StakeOf(balances, pool)
  {
    stake := 0;
    for i := 0 to |balances|
      invariant stake == StakeOf(balances[..i], pool)
    {
      assert balances[..i + 1][..i] == balances[..i];
      if balances[i].address == pool {
        stake := FirstStake(balances[i].coins);
      }
    }
    assert balances[..|balances|] == balances;
  }

  lemma {:induction false} PoolIsSet(balances: seq<Balance>, pool: string, bond: string)
    requires IsAmount(bond)
    ensures StakeOf(WithPool(balances, pool, bond), pool) == Amount(bond)
    ensures NonPool(WithPool(balances, pool, bond), pool) == NonPool(balances, pool)
    ensures forall b :: b in NonPool(balances, pool) ==> b in balances
  {
    var kept := NonPool(balances, pool);
    var entry := Balance(pool, [Coin(STAKE, bond)]);
    assert (kept + [entry])[..|kept|] == kept;
    NonPoolSnoc(kept, entry, pool);
    NonPoolIsFixed(balances, pool);
    NonPoolIsPart(balances, pool);
  }

  lemma {:induction false} PoolIsWellFormed(g: Genesis, pool: string, bond: string)
    requires IsAmount(bond)
    ensures WellFormed(g) ==> WellFormed(g.(balances := WithPool(g.balances, pool, bond)))
  {
    NonPoolIsPart(g.balances, pool);
  }

  lemma {:induction false} NonPoolIsFixed(balances: seq<Balance>, pool: string)
    ensures NonPool(NonPool(balances, pool), pool) == NonPool(balances, pool)
  {
    if balances != [] {
      var init, last := balances[..|balances| - 1], balances[|balances| - 1];
      NonPoolIsFixed(init, pool);
      if last.address != pool {
        NonPoolSnoc(NonPool(init, pool), last, pool);
      } else {
        assert NonPool(balances, pool) == NonPool(init, pool);
      }
    }
  }

  lemma {:induction false} NonPoolIsPart(balances: seq<Balance>, pool: string)
    ensures forall b :: b in NonPool(balances, pool) ==> b in balances
  {
    if balances != [] {
      NonPoolIsPart(balances[..|balances| - 1], pool);
    }
  }

  lemma {:induction false} NonPoolSnoc(balances: seq<Balance>, last: Balance, pool: string)
    ensures NonPool(balances + [last], pool) == NonPool(balances, pool) + (if last.address != pool then [last] else [])
  {}

  // Check 9: the supply is the sum of the balances.
  method FixSupply(g: Genesis) returns (r: Genesis, modified: bool)
    ensures modified <==> !SupplyIsText(g)
    ensures r == g.(supply := r.supply) && (!modified ==> r == g)
    ensures SupplyIsSum(r) && (modified ==> SupplyIsWritten(r))
  {
    var totals := ComputeTotals(g.balances);
    var expected := map d | d in totals :: Quoted(Numeral(totals[d]));
    assert expected == ExpectedSupply(g.balances);
    if SupplyMap(g.supply) == expected {
      TextIsSum(g);
      return g, false;
    }
    var supply := ListSupply(totals);
    r := g.(supply := supply);
    assert SupplyMap(supply) == WrittenSupply(g.balances);
    return r, true;
  }

  lemma {:induction false} TextIsSum(g: Genesis)
    requires SupplyIsText(g)
    ensures SupplyIsSum(g)
  {
    forall d | d in SupplyMap(g.supply)
      ensures NumberOf(SupplyMap(g.supply)[d]) == Total(g.balances, d)
    {
      ValueOfNumeral(Total(g.balances, d));
    }
  }

  method ComputeTotals(balances: seq<Balance>) returns (totals: map<string, nat>)
    ensures totals.Keys == Denoms(balances)
    ensures forall d :: d in totals ==> totals[d] == Total(balances, d)
  {
    totals := map[];
    for i := 0 to |balances|
      invariant totals.Keys == Denoms(balances[..i])
      invariant forall d :: Lookup(totals, d) == Total(balances[..i], d)
    {
      assert balances[..i + 1][..i] == balances[..i];
      totals := AddCoins(totals, balances[i].coins);
    }
    assert balances[..|balances|] == balances;
    forall d | d in totals
      ensures totals[d] == Total(balances, d)
    {
      assert Lookup(totals, d) == totals[d];
    }
  }

  function Lookup(totals: map<string, nat>, d: string): nat {
    if d in totals then totals[d] else 0
  }

  method AddCoins(before: map<string, nat>, coins: seq<Coin>) returns (totals: map<string, nat>)
    ensures totals.Keys == before.Keys + CoinDenoms(coins)
    ensures forall d :: Lookup(totals, d) == Lookup(before, d) + CoinTotal(coins, d)
  {
    totals := before;
    for i := 0 to |coins|
      invariant totals.Keys == before.Keys + CoinDenoms(coins[..i])
      invariant forall d :: Lookup(totals, d) == Lookup(before, d) + CoinTotal(coins[..i], d)
    {
      assert coins[..i + 1][..i] == coins[..i];
      assert coins[..i + 1] == coins[..i] + [coins[i]];
      assert CoinDenoms(coins[..i + 1]) == CoinDenoms(coins[..i]) + {coins[i].denom};
      var c := coins[i];
      totals := totals[c.denom := (if c.denom in totals then totals[c.denom] else 0) + Amount(c.amount)];
    }
    assert coins[..|coins|] == coins;
  }

  // [{"denom": d, "amount": a} for d, a in sorted(totals.items())]
  method ListSupply(totals: map<string, nat>) returns (supply: seq<Supplied>)
    ensures SupplyMap(supply) == map d | d in totals :: Number(totals[d])
    ensures IsSorted(supply)
  {
    supply := [];
    var rest := totals.Keys;
    while rest != {}
      invariant rest <= totals.Keys && IsSorted(supply)
      invariant forall i, d :: 0 <= i < |supply| && d in rest ==> Less(supply[i].denom, d)
      invariant SupplyMap(supply) == map d | d in totals && d !in rest :: Number(totals[d])
      decreases |rest|
    {
      var d := LeastOf(rest);
      var entry := Supplied(d, Number(totals[d]));
      SupplySnoc(supply, entry);
      supply := supply + [entry];
      rest := rest - {d};
    }
  }

  lemma {:induction false} SupplySnoc(supply: seq<Supplied>, entry: Supplied)
    ensures SupplyMap(supply + [entry]) == SupplyMap(supply)[entry.denom := entry.amount]
    ensures IsSorted(supply) && (forall i :: 0 <= i < |supply| ==> Less(supply[i].denom, entry.denom)) ==> IsSorted(supply + [entry])
  {
    assert (supply + [entry])[..|supply|] == supply;
  }

  method LeastOf(denoms: set<string>) returns (least: string)
    requires denoms != {}
    ensures least in denoms && forall d :: d in denoms ==> d == least || Less(least, d)
  {
    least :| least in denoms;
    var rest := denoms - {least};
    while rest != {}
      invariant rest <= denoms && least in denoms
      invariant forall d :: d in denoms && d !in rest ==> d == least || Less(least, d)
      decreases |rest|
    {
      var d :| d in rest;
      LessIsTotal(d, least);
      if Less(d, least) {
        ghost var was := least;
        forall e | e in denoms && Less(was, e)
          ensures Less(d, e)
        {
          LessIsTransitive(d, was, e);
        }
        least := d;
      }
      rest := rest - {d};
    }
  }

  // Check 10: the signing info of the consensus address.
  method FixSigning(g: Genesis, env: Env) returns (r: Genesis, modified: bool)
    ensures modified <==> !HasSigningInfo(g.signingInfos, env.consAddr)
    ensures r == g.(signingInfos := r.signingInfos) && (!modified ==> r == g)
    ensures HasSigningInfo(r.signingInfos, env.consAddr)
    ensures modified ==> r.signingInfos == [SigningInfo(env.consAddr, "start_height 0, not tombstoned")]
  {
    if HasSigningInfo(g.signingInfos, env.consAddr) {
      return g, false;
    }
    var infos := [SigningInfo(env.consAddr, "start_height 0, not tombstoned")];
    assert infos[0].address == env.consAddr;
    return g.(signingInfos := infos), true;
  }

  // What main reads off before the checks; failed when it exits or raises there.
  method Identify(g: Genesis, env: Env) returns (failed: Result, operator: string, delegator: Found)
    ensures failed == Exited <==> Exits(g, env)
    ensures failed == Raised <==> !Exits(g, env) && g.validators == [] && Raises(g, env)
    ensures failed == Exited || failed == Raised || failed == Done(false)
    ensures failed.Done? ==> IsOperator(g, env, operator)
    ensures failed.Done? && g.validators != [] ==> operator == g.validators[0].operator
    ensures failed.Done? && g.delegations != [] ==> delegator == Found(g.delegations[0].delegator)
    ensures failed.Done? ==> (Raises(g, env) <==> delegator == Nobody) && delegator == DelegatorOf(g, env)
  {
    failed, operator, delegator := Done(false), "", Nobody;
    if g.validators != [] {
      operator := g.validators[0].operator;
    } else {
      delegator := SearchDelegator(g, env);
      if delegator == Nobody || delegator == Found("") {
        return Exited, "", Nobody;
      }
      var raw := DecodeRaw(delegator.address);
      if raw.ValueError? {
        return Raised, "", Nobody;
      }
      operator := EncodeBytes("mallvaloper", raw.bytes);
    }
    if g.delegations != [] {
      delegator := Found(g.delegations[0].delegator);
    } else {
      var again := SearchDelegator(g, env);
      if again.Found? {
        delegator := again;
      }
    }
  }

  // Checks 1 to 6; only the staking part and the header change.
  method CheckStaking(g: Genesis, env: Env, operator: string, delegator: string, bond: string) returns (r: Genesis, modified: bool)
    requires g.validators != [] ==> operator == g.validators[0].operator && bond == g.validators[0].tokens
    requires IsAmount(bond) && WellFormed(g)
    ensures WellFormed(r) && StakingIsClean(r, env)
    ensures modified <==> !StakingIsClean(g, env)
    ensures !modified ==> r == g
    ensures r.validators[0].operator == operator && r.validators[0].tokens == bond
    ensures FixesStaking(g, r, env, operator, delegator, bond)
    ensures r == g.(topValidators := r.topValidators, initialHeight := r.initialHeight, genTxs := r.genTxs, validators := r.validators,
                    delegations := r.delegations, lastPowers := r.lastPowers, lastTotalPower := r.lastTotalPower)
  {
    var m1, m2, m3, m4;
    r, m1 := FixHeader(g, env);
    r, m2 := FixValidator(r, env, operator, bond);
    r, m3 := FixDelegation(r, operator, delegator, bond);
    r, m4 := FixPowers(r, operator);
    modified := m1 || m2 || m3 || m4;
  }

  // Checks 7 to 10; check 8 comes before check 9.
  method CheckBank(g: Genesis, env: Env) returns (r: Genesis, modified: bool)
    requires g.validators != [] && WellFormed(g)
    ensures r.validators == g.validators && WellFormed(r)
    ensures BankIsFixed(r, env) && SupplyIsSum(r) && (SupplyIsText(r) || SupplyIsWritten(r))
    ensures modified <==> !(BankIsFixed(g, env) && SupplyIsText(g))
    ensures !modified ==> r == g
    ensures g.accounts <= r.accounts && FixesBank(g, r, env)
    ensures NonPool(r.balances, env.bondedPool) == NonPool(g.balances, env.bondedPool)
    ensures r.balances == FinalBalances(g, env)
    ensures r == g.(accounts := r.accounts, balances := r.balances, supply := r.supply, signingInfos := r.signingInfos)
  {
    var m1, m2, m3, m4;
    r, m1 := FixAccounts(g, env);
    r, m2 := FixPool(r, env, g.validators[0].tokens);
    r, m3 := FixSupply(r);
    r, m4 := FixSigning(r, env);
    modified := m1 || m2 || m3 || m4;
  }

  // The two parts of a repair together keep what a repair keeps.
  lemma {:induction false} PartsKeep(before: Genesis, mid: Genesis, after: Genesis, env: Env, operator: string)
    requires DelegatorOf(before, env).Found? && IsOperator(before, env, operator)
    requires mid.validators != [] && mid.validators[0].operator == operator && mid.validators[0].tokens == Bond(before)
    requires FixesStaking(before, mid, env, operator, DelegatorOf(before, env).address, Bond(before))
    requires mid.accounts == before.accounts && mid.balances == before.balances && mid.supply == before.supply
    requires mid.signingInfos == before.signingInfos && mid.wallets == before.wallets && mid.rest == before.rest
    requires FixesBank(mid, after, env) && mid.accounts <= after.accounts
    requires NonPool(after.balances, env.bondedPool) == NonPool(mid.balances, env.bondedPool)
    requires after.balances == FinalBalances(mid, env)
    requires after == mid.(accounts := after.accounts, balances := after.balances, supply := after.supply, signingInfos := after.signingInfos)
    ensures Keeps(before, after, env)
  {}

  // The ten checks.
  method CheckAll(g: Genesis, env: Env, operator: string, delegator: string) returns (r: Genesis, modified: bool)
    requires WellFormed(g) && IsOperator(g, env, operator) && DelegatorOf(g, env) == Found(delegator)
    ensures WellFormed(r) && Repaired(r, env) && Keeps(g, r, env)
    ensures modified <==> !Clean(g, env)
    ensures !modified ==> r == g
  {
    DefaultBondIsAmount();
    var bond := if g.validators != [] then g.validators[0].tokens else DEFAULT_BOND;
    var mid, m1 := CheckStaking(g, env, operator, delegator, bond);
    var m2;
    r, m2 := CheckBank(mid, env);
    PartsKeep(g, mid, r, env, operator);
    modified := m1 || m2;
  }

  class GenesisFile {
    var genesis: Genesis

    // main, from reading the file to writing it back: it modifies the file exactly when
    // a check had something to fix, and reaches a document that is repaired.
    method EnsureGenesis(env: Env) returns (result: Result)
      requires WellFormed(genesis)
      modifies this
      ensures WellFormed(genesis)
      ensures result == Exited <==> Exits(old(genesis), env)
      ensures result == Raised <==> Raises(old(genesis), env)
      ensures result.Done? ==> Repaired(genesis, env) && (result.modified <==> !Clean(old(genesis), env))
      ensures result.Done? ==> Keeps(old(genesis), genesis, env)
      ensures result != Done(true) ==> genesis == old(genesis)
    {
      var g := genesis;
      var failed, operator, delegator := Identify(g, env);
      if !failed.Done? {
        return failed;
      }
      if delegator == Nobody {
        return Raised;
      }
      var modified;
      g, modified := CheckAll(g, env, operator, delegator.address);
      if modified {
        genesis := g;
      }
      return Done(modified);
    }

    // A run on a repaired document changes nothing in it, and still reports and writes a
    // modification when the supply amounts are numbers.
    method EnsureAgain(env: Env) returns (result: Result)
      requires WellFormed(genesis) && Repaired(genesis, env)
      modifies this
      ensures genesis == old(genesis) && result == Done(!SupplyIsText(genesis))
    {
      StakedDoesNotFail(genesis, env);
      result := EnsureGenesis(env);
      RepairedIsFixed(old(genesis), genesis, env);
    }

    // The script at every start of the chain. Once a run has succeeded the document stays
    // as it is, and every later run modifies it all the same, exactly when the first one
    // had to write a nonempty supply.
    method EnsureAtEveryStart(env: Env, restarts: nat) returns (first: Result, later: seq<Result>, ghost repaired: Genesis)
      requires WellFormed(genesis)
      modifies this
      ensures first.Done? ==> Keeps(old(genesis), repaired, env) && Repaired(repaired, env) && genesis == repaired
      ensures first.Done? ==> |later| == restarts && forall r :: r in later ==> r == Done(WritesSupply(old(genesis), env))
    {
      first := EnsureGenesis(env);
      repaired := genesis;
      later := [];
      if first.Done? {
        TextExactly(old(genesis), repaired, env);
        for i := 0 to restarts
          invariant genesis == repaired && |later| == i && forall r :: r in later ==> r == Done(WritesSupply(old(genesis), env))
        {
          var again := EnsureAgain(env);
          later := later + [again];
        }
      }
    }

    // Two runs.
    method EnsureTwice(env: Env) returns (first: Result, second: Result, ghost between: Genesis)
      requires WellFormed(genesis)
      modifies this
      ensures first.Done? ==> second == Done(WritesSupply(old(genesis), env)) && genesis == between
      ensures first.Done? ==> Keeps(old(genesis), between, env) && Repaired(between, env)
    {
      first := EnsureGenesis(env);
      between := genesis;
      if first.Done? {
        TextExactly(old(genesis), between, env);
        second := EnsureAgain(env);
      } else {
        second := EnsureGenesis(env);
      }
    }
  }

  // Check 9 has to write a supply, and it is not the empty one.
  predicate WritesSupply(g: Genesis, env: Env) {
    SupplyMap(g.supply) != ExpectedSupply(FinalBalances(g, env)) && Denoms(FinalBalances(g, env)) != {}
  }

  // Numbers are not the text check 9 looks for, as soon as there is one.
  lemma {:induction false} NumbersAreNotText(balances: seq<Balance>)
    ensures WrittenSupply(balances) == ExpectedSupply(balances) <==> Denoms(balances) == {}
  {
    if Denoms(balances) == {} {
      assert WrittenSupply(balances) == ExpectedSupply(balances);
    } else {
      var d :| d in Denoms(balances);
      assert WrittenSupply(balances)[d] != ExpectedSupply(balances)[d];
    }
  }

  // After a repair check 9 is satisfied exactly when it did not have to write a nonempty supply.
  lemma {:induction false} TextExactly(before: Genesis, after: Genesis, env: Env)
    requires Keeps(before, after, env)
    ensures SupplyIsText(after) <==> !WritesSupply(before, env)
  {
    NumbersAreNotText(after.balances);
  }

  // A document whose supply check 9 has just written, which check 9 finds wrong.
  lemma {:induction false} RepairedSupplyIsRefused()
    ensures var balances := [Balance("pool", [Coin("stake", "1")])];
            var supply := [Supplied("stake", Number(1))];
            IsSorted(supply) && SupplyMap(supply) == WrittenSupply(balances) != ExpectedSupply(balances)
  {
    var coins := [Coin("stake", "1")];
    var balances := [Balance("pool", coins)];
    var supply := [Supplied("stake", Number(1))];
    var one := "1";
    assert one[..0] == "" && Value(one) == 1;
    assert coins[..0] == [] && balances[..0] == [] && supply[..0] == [];
    assert CoinTotal(coins, "stake") == 1 && Total(balances, "stake") == 1;
    assert coins[0] in coins;
    assert Denoms(balances) == {"stake"};
    assert SupplyMap(supply) == map["stake" := Number(1)];
    NumbersAreNotText(balances);
  }

  // The supply list as a dictionary: the last entry of a denom counts.
  lemma {:induction false} LastAmountCounts(supply: seq<Supplied>, i: nat)
    requires i < |supply| && forall j :: i < j < |supply| ==> supply[j].denom != supply[i].denom
    ensures supply[i].denom in SupplyMap(supply) && SupplyMap(supply)[supply[i].denom] == supply[i].amount
  {
    if i != |supply| - 1 {
      LastAmountCounts(supply[..|supply| - 1], i);
    }
  }

  lemma {:induction false} SupplyKeys(supply: seq<Supplied>)
    ensures forall d :: d in SupplyMap(supply) <==> exists i :: 0 <= i < |supply| && supply[i].denom == d
  {
    if supply != [] {
      var init := supply[..|supply| - 1];
      SupplyKeys(init);
      forall d | d in SupplyMap(init)
        ensures exists i :: 0 <= i < |supply| && supply[i].denom == d
      {
        var i :| 0 <= i < |init| && init[i].denom == d;
        assert supply[i].denom == d;
      }
      assert supply[|supply| - 1].denom in SupplyMap(supply);
      forall i | 0 <= i < |supply|
        ensures supply[i].denom in SupplyMap(supply)
      {
        assert i < |init| ==> init[i].denom == supply[i].denom;
      }
    }
  }

  // The last denom of a sorted list is the greatest, and occurs only there.
  lemma {:induction false} LastIsGreatest(supply: seq<Supplied>)
    requires supply != [] && IsSorted(supply)
    ensures var last := supply[|supply| - 1].denom;
            && (forall d :: d in SupplyMap(supply) ==> d == last || Less(d, last))
            && SupplyMap(supply[..|supply| - 1]) == SupplyMap(supply) - {last}
  {
    var init, last := supply[..|supply| - 1], supply[|supply| - 1].denom;
    SupplyKeys(supply);
    SupplyKeys(init);
    LessIsIrreflexive(last);
    assert last !in SupplyMap(init);
  }

  lemma {:induction false} LastIsMapped(supply: seq<Supplied>)
    ensures SupplyMap(supply) == map[] <==> supply == []
    ensures supply != [] ==> supply[|supply| - 1].denom in SupplyMap(supply)
                             && SupplyMap(supply)[supply[|supply| - 1].denom] == supply[|supply| - 1].amount
  {
    if supply != [] {
      assert supply[|supply| - 1].denom in SupplyMap(supply);
    }
  }

  // A sorted list is determined by its map.
  lemma {:induction false} SortedIsUnique(a: seq<Supplied>, b: seq<Supplied>)
    requires IsSorted(a) && IsSorted(b) && SupplyMap(a) == SupplyMap(b)
    ensures a == b
  {
    LastIsMapped(a);
    LastIsMapped(b);
    if a != [] && b != [] {
      var n, m := |a| - 1, |b| - 1;
      LastIsGreatest(a);
      LastIsGreatest(b);
      SameGreatest(a[n].denom, b[m].denom);
      SortedIsUnique(a[..n], b[..m]);
      assert a == a[..n] + [a[n]] && b == b[..m] + [b[m]];
    }
  }

  lemma {:induction false} SameGreatest(a: string, b: string)
    requires (a == b || Less(a, b)) && (b == a || Less(b, a))
    ensures a == b
  {
    if a != b {
      LessIsTransitive(a, b, a);
      LessIsIrreflexive(a);
    }
  }

  // A repair of a repaired document gives the document back.
  lemma {:induction false} RepairedIsFixed(before: Genesis, after: Genesis, env: Env)
    requires Repaired(before, env) && Repaired(after, env) && Keeps(before, after, env)
    ensures after == before
  {
    if !SupplyIsText(before) {
      assert SupplyMap(before.supply) == WrittenSupply(before.balances) == SupplyMap(after.supply);
      SortedIsUnique(before.supply, after.supply);
    }
  }

  lemma {:induction false} DefaultBondIsAmount()
    ensures IsAmount(DEFAULT_BOND) && Amount(DEFAULT_BOND) == 1_000_000_000
  {
    var one := "1";
    assert Value(one[..0]) == 0;
    ValueOfZeros(9);
    assert DEFAULT_BOND == one + Zeros(9);
    ValueOfConcat(one, Zeros(9));
    assert Numerals.Pow(10, 9) == 1_000_000_000;
  }

  lemma {:induction false} StakedDoesNotFail(g: Genesis, env: Env)
    requires StakingIsClean(g, env)
    ensures !Exits(g, env) && !Raises(g, env)
  {}

  // Check 9 must come after check 8: wherever the pool has no entry and the bond is
  // positive, a supply that agreed with the balances no longer does once the pool is set.
  lemma {:induction false} PoolBeforeSupply(balances: seq<Balance>, supply: seq<Supplied>, pool: string, bond: string)
    requires IsAmount(bond) && Amount(bond) > 0
    requires forall b :: b in balances ==> b.address != pool
    requires SupplyMap(supply) == ExpectedSupply(balances)
    ensures SupplyMap(supply) != ExpectedSupply(WithPool(balances, pool, bond))
  {
    var coin := Coin(STAKE, bond);
    var entry := Balance(pool, [coin]);
    assert forall i :: 0 <= i < |balances| ==> balances[i] in balances;
    NothingRemoved(balances, pool);
    var after := balances + [entry];
    assert after[..|balances|] == balances;
    assert [coin][..0] == [];
    assert CoinTotal([coin], STAKE) == Amount(bond);
    assert coin in entry.coins;
    assert STAKE in ExpectedSupply(after);
    TotalOfAbsent(balances, STAKE);
    ValueOfNumeral(Total(balances, STAKE));
    ValueOfNumeral(Total(after, STAKE));
  }

  lemma {:induction false} NothingRemoved(balances: seq<Balance>, pool: string)
    requires forall i :: 0 <= i < |balances| ==> balances[i].address != pool
    ensures NonPool(balances, pool) == balances
  {
    if balances != [] {
      NothingRemoved(balances[..|balances| - 1], pool);
      assert balances == balances[..|balances| - 1] + [balances[|balances| - 1]];
    }
  }

  lemma {:induction false} TotalOfAbsent(balances: seq<Balance>, denom: string)
    ensures denom !in Denoms(balances) ==> Total(balances, denom) == 0
  {
    if balances != [] {
      TotalOfAbsent(balances[..|balances| - 1], denom);
      CoinTotalOfAbsent(balances[|balances| - 1].coins, denom);
    }
  }

  lemma {:induction false} CoinTotalOfAbsent(coins: seq<Coin>, denom: string)
    ensures denom !in CoinDenoms(coins) ==> CoinTotal(coins, denom) == 0
  {
    if coins != [] {
      var init, last := coins[..|coins| - 1], coins[|coins| - 1];
      assert last in coins;
      assert forall c :: c in init ==> c in coins;
      assert CoinDenoms(init) <= CoinDenoms(coins);
      CoinTotalOfAbsent(init, denom);
    }
  }
}
