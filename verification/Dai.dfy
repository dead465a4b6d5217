/** The Dai token ledger with wrap-around uint256 arithmetic. */
module Dai {
  import opened Wrappers
  import opened Words

  type Address = nat

  /** uint(-1), which stands for an unlimited allowance. */
  const MAX: nat := MODULUS - 1

  /** x + y wraps around; the result is refused when it did. */
  function Add(x: uint256, y: uint256): Option<uint256> {
    var z := (x + y) % MODULUS;
    if z >= x then Some(z) else None
  }

  function Sub(x: uint256, y: uint256): Option<uint256> {
    var z := (x - y) % MODULUS;
    if z <= x then Some(z) else None
  }

  lemma AddIsChecked(x: uint256, y: uint256)
    ensures Add(x, y) == if x + y < MODULUS then Some(x + y) else None
  {
  }

  lemma SubIsChecked(x: uint256, y: uint256)
    ensures Sub(x, y) == if y <= x then Some(x - y) else None
  {
  }

  /** The storage; an address or pair without entry has value 0. */
  datatype State = State(
    totalSupply: uint256,
    balanceOf: map<Address, uint256>,
    allowance: map<(Address, Address), uint256>,
    nonces: map<Address, uint256>,
    wards: map<Address, uint256>)

  function Get(m: map<Address, uint256>, a: Address): uint256 {
    if a in m then m[a] else 0
  }

  function Balance(s: State, a: Address): uint256 {
    Get(s.balanceOf, a)
  }

  function Allowance(s: State, src: Address, guy: Address): uint256 {
    if (src, guy) in s.allowance then s.allowance[(src, guy)] else 0
  }

  function Nonce(s: State, a: Address): uint256 {
    if a in s.nonces then s.nonces[a] else 0
  }

  predicate IsWard(s: State, a: Address) {
    a in s.wards && s.wards[a] == 1
  }

  /** Every external call, with its sender.  `signer` and `now` of a permit are what
      ecrecover and the clock give. */
  datatype Call =
    | Rely(guy: Address)
    | Deny(guy: Address)
    | Transfer(dst: Address, wad: uint256)
    | TransferFrom(src: Address, dst: Address, wad: uint256)
    | Mint(usr: Address, wad: uint256)
    | Burn(usr: Address, wad: uint256)
    | Approve(usr: Address, wad: uint256)
    | Push(usr: Address, wad: uint256)
    | Pull(usr: Address, wad: uint256)
    | Move(src: Address, dst: Address, wad: uint256)
    | Permit(holder: Address, spender: Address, nonce: uint256, expiry: uint256, allowed: bool,
             signer: Address, now: uint256)

  /** The allowance `sender` needs to take `wad` from `src`; None when it is too low. */
  function Spend(s: State, sender: Address, src: Address, wad: uint256): Option<State> {
    if src != sender && Allowance(s, src, sender) != MAX then
      if Allowance(s, src, sender) >= wad then
        var left := Sub(Allowance(s, src, sender), wad);
        if left.None? then None else Some(s.(allowance := s.allowance[(src, sender) := left.value]))
      else None
    else Some(s)
  }

  function DoTransferFrom(s: State, sender: Address, src: Address, dst: Address, wad: uint256): Option<State> {
    if Balance(s, src) < wad then None
    else
      var spent := Spend(s, sender, src, wad);
      if spent.None? then None
      else
        var rest := Sub(Balance(spent.value, src), wad);
        if rest.None? then None
        else
          var s1 := spent.value.(balanceOf := spent.value.balanceOf[src := rest.value]);
          var more := Add(Balance(s1, dst), wad);
          if more.None? then None else Some(s1.(balanceOf := s1.balanceOf[dst := more.value]))
  }

  function DoMint(s: State, sender: Address, usr: Address, wad: uint256): Option<State> {
    if !IsWard(s, sender) then None
    else
      var more := Add(Balance(s, usr), wad);
      var supply := Add(s.totalSupply, wad);
      if more.None? || supply.None? then None
      else Some(s.(balanceOf := s.balanceOf[usr := more.value], totalSupply := supply.value))
  }

  function DoBurn(s: State, sender: Address, usr: Address, wad: uint256): Option<State> {
    if Balance(s, usr) < wad then None
    else
      var spent := Spend(s, sender, usr, wad);
      if spent.None? then None
      else
        var rest := Sub(Balance(spent.value, usr), wad);
        var supply := Sub(s.totalSupply, wad);
        if rest.None? || supply.None? then None
        else Some(spent.value.(balanceOf := spent.value.balanceOf[usr := rest.value], totalSupply := supply.value))
  }

  function DoPermit(s: State, holder: Address, spender: Address, nonce: uint256, expiry: uint256,
                    allowed: bool, signer: Address, now: uint256): Option<State> {
    if holder == 0 || holder != signer || (expiry != 0 && now > expiry) || nonce != Nonce(s, holder) then None
    else Some(s.(nonces := s.nonces[holder := (nonce + 1) % MODULUS],
                 allowance := s.allowance[(holder, spender) := if allowed then MAX else 0]))
  }

  /** The outcome of a call: the new state, or None when it reverts. */
  function Outcome(s: State, sender: Address, call: Call): Option<State> {
    match call
    case Rely(guy) => if IsWard(s, sender) then Some(s.(wards := s.wards[guy := 1])) else None
    case Deny(guy) => if IsWard(s, sender) then Some(s.(wards := s.wards[guy := 0])) else None
    case Transfer(dst, wad) => DoTransferFrom(s, sender, sender, dst, wad)
    case TransferFrom(src, dst, wad) => DoTransferFrom(s, sender, src, dst, wad)
    case Mint(usr, wad) => DoMint(s, sender, usr, wad)
    case Burn(usr, wad) => DoBurn(s, sender, usr, wad)
    case Approve(usr, wad) => Some(s.(allowance := s.allowance[(sender, usr) := wad]))
    case Push(usr, wad) => DoTransferFrom(s, sender, sender, usr, wad)
    case Pull(usr, wad) => DoTransferFrom(s, sender, usr, sender, wad)
    case Move(src, dst, wad) => DoTransferFrom(s, sender, src, dst, wad)
    case Permit(holder, spender, nonce, expiry, allowed, signer, now) =>
      DoPermit(s, holder, spender, nonce, expiry, allowed, signer, now)
  }

  /** A reverted call leaves the storage as it was. */
  function Step(s: State, sender: Address, call: Call): State {
    var r := Outcome(s, sender, call);
    if r.Some? then r.value else s
  }

  datatype Tx = Tx(sender: Address, call: Call)

  function Run(s: State, txs: seq<Tx>): State
    decreases |txs|
  {
    if txs == [] then s else Run(Step(s, txs[0].sender, txs[0].call), txs[1..])
  }

  function Deployed(owner: Address): (s: State)
    ensures forall a :: IsWard(s, a) <==> a == owner
    ensures s.totalSupply == 0 && forall a :: Balance(s, a) == 0 && Nonce(s, a) == 0
    ensures forall a, b :: Allowance(s, a, b) == 0
  {
    State(0, map[], map[], map[], map[owner := 1])
  }

  ghost function Sum(m: map<Address, uint256>): nat {
    if m == map[] then 0
    else
      var a :| a in m;
      m[a] + Sum(m - {a})
  }

  /** The sum may start with any address. */
  lemma {:induction false} SumPicks(m: map<Address, uint256>, a: Address)
    requires a in m
    ensures Sum(m) == m[a] + Sum(m - {a})
    decreases |m|
  {
    var b :| b in m && Sum(m) == m[b] + Sum(m - {b});
    if a != b {
      SumPicks(m - {b}, a);
      SumPicks(m - {a}, b);
      assert m - {a} - {b} == m - {b} - {a};
    }
  }

  lemma SumUpdate(m: map<Address, uint256>, a: Address, v: uint256)
    ensures Sum(m[a := v]) == Sum(m) - Get(m, a) + v
  {
    var m' := m[a := v];
    SumPicks(m', a);
    assert m' - {a} == m - {a};
    if a in m { SumPicks(m, a); } else { assert m - {a} == m; }
  }

  lemma {:induction false} SumBoundsEach(m: map<Address, uint256>, a: Address)
    requires a in m
    ensures m[a] <= Sum(m)
  {
    SumPicks(m, a);
  }

  ghost predicate Balanced(s: State) {
    Sum(s.balanceOf) == s.totalSupply
  }

  lemma BalanceBelowSupply(s: State, a: Address)
    requires Balanced(s)
    ensures Balance(s, a) <= s.totalSupply
  {
    if a in s.balanceOf { SumBoundsEach(s.balanceOf, a); }
  }

  /** Taking `wad` from one entry and adding it to another, maybe the same, keeps the
      sum, and the second entry stays below any bound on the sum. */
  lemma MovingKeepsSum(m: map<Address, uint256>, src: Address, dst: Address, wad: uint256)
    requires wad <= Get(m, src) && Sum(m) < MODULUS
    ensures var m1 := m[src := Get(m, src) - wad];
            Get(m1, dst) + wad < MODULUS && Sum(m1[dst := Get(m1, dst) + wad]) == Sum(m)
  {
    var m1 := m[src := Get(m, src) - wad];
    SumUpdate(m, src, Get(m, src) - wad);
    if dst in m1 { SumBoundsEach(m1, dst); }
    SumUpdate(m1, dst, Get(m1, dst) + wad);
  }

  lemma TransferOutcome(s: State, sender: Address, src: Address, dst: Address, wad: uint256)
    requires Balanced(s) && Balance(s, src) >= wad && Spend(s, sender, src, wad).Some?
    ensures var rest := s.balanceOf[src := Balance(s, src) - wad];
            && Get(rest, dst) + wad < MODULUS
            && DoTransferFrom(s, sender, src, dst, wad) ==
                 Some(Spend(s, sender, src, wad).value.(balanceOf := rest[dst := Get(rest, dst) + wad]))
  {
    MovingKeepsSum(s.balanceOf, src, dst, wad);
    SubIsChecked(Balance(s, src), wad);
    AddIsChecked(Get(s.balanceOf[src := Balance(s, src) - wad], dst), wad);
  }

  /** A transfer moves `wad`, also to the source itself, and never fails for the
      recipient's sake. */
  lemma TransferKeepsBalance(s: State, sender: Address, src: Address, dst: Address, wad: uint256)
    requires Balanced(s)
    ensures DoTransferFrom(s, sender, src, dst, wad).Some? <==>
            Balance(s, src) >= wad && Spend(s, sender, src, wad).Some?
    ensures DoTransferFrom(s, sender, src, dst, wad).Some? ==>
              var s' := DoTransferFrom(s, sender, src, dst, wad).value;
              && Balanced(s') && s'.totalSupply == s.totalSupply
              && (forall a :: Balance(s', a) ==
                              Balance(s, a) - (if a == src then wad else 0) + (if a == dst then wad else 0))
  {
    if Balance(s, src) >= wad && Spend(s, sender, src, wad).Some? { TransferMoves(s, sender, src, dst, wad); }
  }

  lemma TransferMoves(s: State, sender: Address, src: Address, dst: Address, wad: uint256)
    requires Balanced(s) && Balance(s, src) >= wad && Spend(s, sender, src, wad).Some?
    ensures var r := DoTransferFrom(s, sender, src, dst, wad);
            && r.Some? && Balanced(r.value) && r.value.totalSupply == s.totalSupply
            && (forall a :: Balance(r.value, a) ==
                            Balance(s, a) - (if a == src then wad else 0) + (if a == dst then wad else 0))
  {
    TransferOutcome(s, sender, src, dst, wad);
    MovingKeepsSum(s.balanceOf, src, dst, wad);
    MovedBalances(s.balanceOf, src, dst, wad);
  }

  lemma MovedBalances(m: map<Address, uint256>, src: Address, dst: Address, wad: uint256)
    requires wad <= Get(m, src) && Get(m[src := Get(m, src) - wad], dst) + wad < MODULUS
    ensures var rest := m[src := Get(m, src) - wad];
            forall a :: Get(rest[dst := Get(rest, dst) + wad], a) ==
                        Get(m, a) - (if a == src then wad else 0) + (if a == dst then wad else 0)
  {
  }

  lemma MintKeepsBalance(s: State, sender: Address, usr: Address, wad: uint256)
    requires Balanced(s)
    ensures var r := DoMint(s, sender, usr, wad);
            && (r.Some? <==> IsWard(s, sender) && s.totalSupply + wad < MODULUS)
            && (r.Some? ==> Balanced(r.value) && r.value.totalSupply == s.totalSupply + wad)
            && (r.Some? ==> Balance(r.value, usr) == Balance(s, usr) + wad)
  {
    BalanceBelowSupply(s, usr);
    AddIsChecked(Balance(s, usr), wad);
    AddIsChecked(s.totalSupply, wad);
    if Balance(s, usr) + wad < MODULUS { SumUpdate(s.balanceOf, usr, Balance(s, usr) + wad); }
  }

  lemma BurnKeepsBalance(s: State, sender: Address, usr: Address, wad: uint256)
    requires Balanced(s)
    ensures var r := DoBurn(s, sender, usr, wad);
            && (r.Some? <==> Balance(s, usr) >= wad && Spend(s, sender, usr, wad).Some?)
            && (r.Some? ==> Balanced(r.value) && r.value.totalSupply == s.totalSupply - wad)
            && (r.Some? ==> Balance(r.value, usr) == Balance(s, usr) - wad)
  {
    if Balance(s, usr) >= wad {
      BalanceBelowSupply(s, usr);
      SubIsChecked(Balance(s, usr), wad);
      SubIsChecked(s.totalSupply, wad);
      SumUpdate(s.balanceOf, usr, Balance(s, usr) - wad);
    }
  }

  lemma StepKeepsBalance(s: State, sender: Address, call: Call)
    requires Balanced(s)
    ensures Balanced(Step(s, sender, call))
  {
    match call
    case Transfer(dst, wad) => TransferKeepsBalance(s, sender, sender, dst, wad);
    case TransferFrom(src, dst, wad) => TransferKeepsBalance(s, sender, src, dst, wad);
    case Push(usr, wad) => TransferKeepsBalance(s, sender, sender, usr, wad);
    case Pull(usr, wad) => TransferKeepsBalance(s, sender, usr, sender, wad);
    case Move(src, dst, wad) => TransferKeepsBalance(s, sender, src, dst, wad);
    case Mint(usr, wad) => MintKeepsBalance(s, sender, usr, wad);
    case Burn(usr, wad) => BurnKeepsBalance(s, sender, usr, wad);
    case _ =>
  }

  /** Every run of transactions keeps the books balanced. */
  lemma {:induction false} SupplyIsSumOfBalances(s: State, txs: seq<Tx>)
    requires Balanced(s)
    ensures Balanced(Run(s, txs))
    decreases |txs|
  {
    if txs == [] {
    } else {
      StepKeepsBalance(s, txs[0].sender, txs[0].call);
      SupplyIsSumOfBalances(Step(s, txs[0].sender, txs[0].call), txs[1..]);
    }
  }

  /** In every state reachable from the deployment the balances add up, as numbers and not
      merely modulo 2^256, to the total supply. */
  lemma SupplyFromDeployment(owner: Address, txs: seq<Tx>)
    ensures Balanced(Run(Deployed(owner), txs))
  {
    SupplyIsSumOfBalances(Deployed(owner), txs);
  }

  /** What `spender` takes from `src` in one call that does not revert. */
  function Taken(s: State, tx: Tx, src: Address, spender: Address): nat {
    if tx.sender != spender || Outcome(s, tx.sender, tx.call).None? then 0
    else
      match tx.call
      case TransferFrom(from, dst, wad) => if from == src then wad else 0
      case Pull(usr, wad) => if usr == src then wad else 0
      case Move(from, dst, wad) => if from == src then wad else 0
      case Burn(usr, wad) => if usr == src then wad else 0
      case _ => 0
  }

  function TotalTaken(s: State, txs: seq<Tx>, src: Address, spender: Address): nat
    decreases |txs|
  {
    if txs == [] then 0
    else Taken(s, txs[0], src, spender) + TotalTaken(Step(s, txs[0].sender, txs[0].call), txs[1..], src, spender)
  }

  /** A call that may set the allowance of `spender` over `src`. */
  predicate Sets(tx: Tx, src: Address, spender: Address) {
    || (tx.call.Approve? && tx.sender == src && tx.call.usr == spender)
    || (tx.call.Permit? && tx.call.holder == src && tx.call.spender == spender)
  }

  lemma SpendUses(s: State, sender: Address, from: Address, wad: uint256, src: Address, spender: Address)
    requires src != spender && Spend(s, sender, from, wad).Some?
    ensures var s' := Spend(s, sender, from, wad).value;
            Allowance(s', src, spender) ==
              if sender == spender && from == src && Allowance(s, src, spender) != MAX
              then Allowance(s, src, spender) - wad else Allowance(s, src, spender)
  {
    SubIsChecked(Allowance(s, from, sender), wad);
  }

  lemma StepUsesAllowance(s: State, tx: Tx, src: Address, spender: Address)
    requires src != spender && !Sets(tx, src, spender)
    ensures var s' := Step(s, tx.sender, tx.call);
            if Allowance(s, src, spender) == MAX then Allowance(s', src, spender) == MAX
            else Allowance(s', src, spender) + Taken(s, tx, src, spender) == Allowance(s, src, spender)
  {
    if Outcome(s, tx.sender, tx.call).Some? {
      match tx.call
      case Transfer(dst, wad) => SpendUses(s, tx.sender, tx.sender, wad, src, spender);
      case Push(usr, wad) => SpendUses(s, tx.sender, tx.sender, wad, src, spender);
      case TransferFrom(from, dst, wad) => SpendUses(s, tx.sender, from, wad, src, spender);
      case Pull(usr, wad) => SpendUses(s, tx.sender, usr, wad, src, spender);
      case Move(from, dst, wad) => SpendUses(s, tx.sender, from, wad, src, spender);
      case Burn(usr, wad) => SpendUses(s, tx.sender, usr, wad, src, spender);
      case _ =>
    }
  }

  /** Over any run that does not set it anew, a limited allowance is conserved: what
      remains plus what the spender took is what there was; an unlimited one stays
      unlimited. */
  lemma {:induction false} AllowanceIsConserved(s: State, txs: seq<Tx>, src: Address, spender: Address)
    requires src != spender && forall tx :: tx in txs ==> !Sets(tx, src, spender)
    ensures if Allowance(s, src, spender) == MAX then Allowance(Run(s, txs), src, spender) == MAX
            else Allowance(Run(s, txs), src, spender) + TotalTaken(s, txs, src, spender) == Allowance(s, src, spender)
    decreases |txs|
  {
    if txs == [] {
    } else {
      assert txs == [txs[0]] + txs[1..];
      StepUsesAllowance(s, txs[0], src, spender);
      AllowanceIsConserved(Step(s, txs[0].sender, txs[0].call), txs[1..], src, spender);
    }
  }

  // ----- What each call does, and to whom -----

  /** Whom `sender` needs no allowance from, or has enough of. */
  ghost predicate MaySpend(s: State, sender: Address, src: Address, wad: uint256) {
    src == sender || Allowance(s, src, sender) == MAX || Allowance(s, src, sender) >= wad
  }

  /** The allowances after `sender` took `wad` from `src`: that of the pair is lower by
      `wad`, unless it was not needed or is unlimited, and all others are as before. */
  ghost predicate AllowanceSpent(s: State, s': State, sender: Address, src: Address, wad: uint256) {
    forall a, b :: Allowance(s', a, b) ==
      if a == src && b == sender && src != sender && Allowance(s, a, b) != MAX
      then Allowance(s, a, b) - wad else Allowance(s, a, b)
  }

  ghost predicate SameRights(s: State, s': State) {
    && (forall a :: Nonce(s', a) == Nonce(s, a))
    && (forall a :: IsWard(s', a) <==> IsWard(s, a))
  }

  lemma SpendIsExact(s: State, sender: Address, src: Address, wad: uint256)
    ensures var r := Spend(s, sender, src, wad);
            && (r.Some? <==> MaySpend(s, sender, src, wad))
            && (r.Some? ==> AllowanceSpent(s, r.value, sender, src, wad) && SameRights(s, r.value))
            && (r.Some? ==> r.value.balanceOf == s.balanceOf && r.value.totalSupply == s.totalSupply)
  {
    SubIsChecked(Allowance(s, src, sender), wad);
  }

  /** The calls that move `wad` from `src` to `dst`. */
  ghost predicate Moves(sender: Address, call: Call, src: Address, dst: Address, wad: uint256) {
    match call
    case TransferFrom(from, to, amount) => from == src && to == dst && amount == wad
    case Move(from, to, amount) => from == src && to == dst && amount == wad
    case Transfer(to, amount) => sender == src && to == dst && amount == wad
    case Push(to, amount) => sender == src && to == dst && amount == wad
    case Pull(from, amount) => from == src && sender == dst && amount == wad
    case _ => false
  }

  /** Such a call succeeds exactly with the balance and the allowance; it moves the
      amount, uses up the allowance, and changes nothing else. */
  lemma MoveIsExact(s: State, sender: Address, call: Call, src: Address, dst: Address, wad: uint256)
    requires Balanced(s) && Moves(sender, call, src, dst, wad)
    ensures var r := Outcome(s, sender, call);
            && (r.Some? <==> Balance(s, src) >= wad && MaySpend(s, sender, src, wad))
            && (r.Some? ==>
                  && (forall a :: Balance(r.value, a) ==
                        Balance(s, a) - (if a == src then wad else 0) + (if a == dst then wad else 0))
                  && AllowanceSpent(s, r.value, sender, src, wad) && SameRights(s, r.value)
                  && r.value.totalSupply == s.totalSupply)
  {
    SpendIsExact(s, sender, src, wad);
    TransferKeepsBalance(s, sender, src, dst, wad);
    if Balance(s, src) >= wad && Spend(s, sender, src, wad).Some? { TransferOutcome(s, sender, src, dst, wad); }
  }

  /** Minting needs a ward and room below 2^256; burning needs what a move needs.  Both
      change one balance and the supply by the amount. */
  lemma MintIsExact(s: State, sender: Address, usr: Address, wad: uint256)
    requires Balanced(s)
    ensures var r := Outcome(s, sender, Mint(usr, wad));
            && (r.Some? <==> IsWard(s, sender) && s.totalSupply + wad < MODULUS)
            && (r.Some? ==>
                  && (forall a :: Balance(r.value, a) == Balance(s, a) + (if a == usr then wad else 0))
                  && r.value.totalSupply == s.totalSupply + wad
                  && (forall a, b :: Allowance(r.value, a, b) == Allowance(s, a, b)) && SameRights(s, r.value))
  {
    MintKeepsBalance(s, sender, usr, wad);
  }

  lemma BurnIsExact(s: State, sender: Address, usr: Address, wad: uint256)
    requires Balanced(s)
    ensures var r := Outcome(s, sender, Burn(usr, wad));
            && (r.Some? <==> Balance(s, usr) >= wad && MaySpend(s, sender, usr, wad))
            && (r.Some? ==>
                  && (forall a :: Balance(r.value, a) == Balance(s, a) - (if a == usr then wad else 0))
                  && r.value.totalSupply == s.totalSupply - wad
                  && AllowanceSpent(s, r.value, sender, usr, wad) && SameRights(s, r.value))
  {
    SpendIsExact(s, sender, usr, wad);
    BurnKeepsBalance(s, sender, usr, wad);
  }

  /** Neither balances nor the supply change. */
  ghost predicate SameFunds(s: State, s': State) {
    s'.totalSupply == s.totalSupply && forall a :: Balance(s', a) == Balance(s, a)
  }

  /** Of all rights and funds only whether `guy` is a ward may differ. */
  ghost predicate OnlyWard(s: State, s': State, guy: Address, ward: bool) {
    && (forall a :: IsWard(s', a) <==> if a == guy then ward else IsWard(s, a))
    && SameFunds(s, s') && (forall a :: Nonce(s', a) == Nonce(s, a))
    && forall a, b :: Allowance(s', a, b) == Allowance(s, a, b)
  }

  /** Only a ward makes or dismisses a ward, and that is all these calls do. */
  lemma RelyIsExact(s: State, sender: Address, guy: Address)
    ensures var r := Outcome(s, sender, Rely(guy));
            (r.Some? <==> IsWard(s, sender)) && (r.Some? ==> OnlyWard(s, r.value, guy, true))
  {
    WardSet(s, s.(wards := s.wards[guy := 1]), guy, 1);
  }

  lemma DenyIsExact(s: State, sender: Address, guy: Address)
    ensures var r := Outcome(s, sender, Deny(guy));
            (r.Some? <==> IsWard(s, sender)) && (r.Some? ==> OnlyWard(s, r.value, guy, false))
  {
    WardSet(s, s.(wards := s.wards[guy := 0]), guy, 0);
  }

  lemma WardSet(s: State, s': State, guy: Address, v: uint256)
    requires s' == s.(wards := s.wards[guy := v])
    ensures OnlyWard(s, s', guy, v == 1)
  {
  }

  /** Approving always succeeds and sets the allowance of one pair, the sender's. */
  lemma ApproveIsExact(s: State, sender: Address, usr: Address, wad: uint256)
    ensures var r := Outcome(s, sender, Approve(usr, wad));
            && r.Some? && SameFunds(s, r.value) && SameRights(s, r.value)
            && forall a, b :: Allowance(r.value, a, b) == if a == sender && b == usr then wad else Allowance(s, a, b)
  {
  }

  /** A permit succeeds exactly for a holder that is not the zero address and signed it,
      before its expiry, if any, and with the current nonce; whoever sends it.  It gives
      the spender everything or nothing, uses up the nonce, and changes nothing else. */
  lemma PermitIsExact(s: State, sender: Address, call: Call)
    requires call.Permit?
    ensures var r := Outcome(s, sender, call);
            && (r.Some? <==>
                  && call.holder != 0 && call.signer == call.holder
                  && (call.expiry == 0 || call.now <= call.expiry) && call.nonce == Nonce(s, call.holder))
            && (r.Some? ==>
                  && (forall a, b :: Allowance(r.value, a, b) ==
                        if a == call.holder && b == call.spender then (if call.allowed then MODULUS - 1 else 0)
                        else Allowance(s, a, b))
                  && (forall a :: Nonce(r.value, a) ==
                        if a == call.holder then (Nonce(s, a) + 1) % MODULUS else Nonce(s, a))
                  && (forall a :: IsWard(r.value, a) <==> IsWard(s, a)) && SameFunds(s, r.value))
  {
  }

  /** A transaction in which `src` has a hand: it sent or signed it. */
  predicate ActsFor(tx: Tx, src: Address) {
    tx.sender == src || (tx.call.Permit? && tx.call.signer == src)
  }

  lemma StepRaisesNone(s: State, tx: Tx, src: Address, guy: Address)
    requires !ActsFor(tx, src)
    ensures Allowance(Step(s, tx.sender, tx.call), src, guy) <= Allowance(s, src, guy)
  {
    match tx.call
    case Transfer(dst, wad) => SpendIsExact(s, tx.sender, tx.sender, wad);
    case Push(usr, wad) => SpendIsExact(s, tx.sender, tx.sender, wad);
    case TransferFrom(from, dst, wad) => SpendIsExact(s, tx.sender, from, wad);
    case Pull(usr, wad) => SpendIsExact(s, tx.sender, usr, wad);
    case Move(from, dst, wad) => SpendIsExact(s, tx.sender, from, wad);
    case Burn(usr, wad) => SpendIsExact(s, tx.sender, usr, wad);
    case _ =>
  }

  /** Over any run in which `src` neither sends nor signs anything, nobody gains
      allowance over it. */
  lemma {:induction false} NobodyGainsAllowance(s: State, txs: seq<Tx>, src: Address, guy: Address)
    requires forall tx :: tx in txs ==> !ActsFor(tx, src)
    ensures Allowance(Run(s, txs), src, guy) <= Allowance(s, src, guy)
    decreases |txs|
  {
    if txs == [] {
    } else {
      assert txs == [txs[0]] + txs[1..];
      StepRaisesNone(s, txs[0], src, guy);
      NobodyGainsAllowance(Step(s, txs[0].sender, txs[0].call), txs[1..], src, guy);
    }
  }

  /** The permits of a holder in a run, successful or not. */
  function PermitsOf(txs: seq<Tx>, holder: Address): nat {
    if txs == [] then 0
    else (if txs[0].call.Permit? && txs[0].call.holder == holder then 1 else 0) + PermitsOf(txs[1..], holder)
  }

  /** A run moves the nonce of a holder on by the number of its successful permits. */
  lemma {:induction false} NonceCounts(s: State, txs: seq<Tx>, holder: Address) returns (k: nat)
    ensures k <= PermitsOf(txs, holder) && Nonce(Run(s, txs), holder) == (Nonce(s, holder) + k) % MODULUS
    decreases |txs|
  {
    if txs == [] {
      k := 0;
    } else {
      var s1 := Step(s, txs[0].sender, txs[0].call);
      k := NonceCounts(s1, txs[1..], holder);
      if Nonce(s1, holder) != Nonce(s, holder) {
        NonceStep(s, txs[0], holder);
        NextMod(Nonce(s, holder), k);
        k := k + 1;
      }
    }
  }

  lemma NonceStep(s: State, tx: Tx, holder: Address)
    ensures var s' := Step(s, tx.sender, tx.call);
            Nonce(s', holder) != Nonce(s, holder) ==>
              tx.call.Permit? && tx.call.holder == holder && Nonce(s', holder) == (Nonce(s, holder) + 1) % MODULUS
  {
    match tx.call
    case Transfer(dst, wad) => SpendIsExact(s, tx.sender, tx.sender, wad);
    case Push(usr, wad) => SpendIsExact(s, tx.sender, tx.sender, wad);
    case TransferFrom(from, dst, wad) => SpendIsExact(s, tx.sender, from, wad);
    case Pull(usr, wad) => SpendIsExact(s, tx.sender, usr, wad);
    case Move(from, dst, wad) => SpendIsExact(s, tx.sender, from, wad);
    case Burn(usr, wad) => SpendIsExact(s, tx.sender, usr, wad);
    case _ =>
  }

  lemma NextMod(n: nat, k: nat)
    requires n < MODULUS
    ensures ((n + 1) % MODULUS + k) % MODULUS == (n + k + 1) % MODULUS
  {
    if n + 1 == MODULUS { assert n + k + 1 == k + MODULUS; }
  }

  /** A permit that succeeded does not succeed again, whoever sends it, unless the holder
      issues 2^256 permits meanwhile. */
  lemma PermitSucceedsOnce(s: State, tx: Tx, txs: seq<Tx>, again: Address)
    requires tx.call.Permit? && Outcome(s, tx.sender, tx.call).Some?
    requires PermitsOf(txs, tx.call.holder) < MODULUS - 1
    ensures Outcome(Run(Step(s, tx.sender, tx.call), txs), again, tx.call).None?
  {
    var s1 := Step(s, tx.sender, tx.call);
    PermitIsExact(s, tx.sender, tx.call);
    var k := NonceCounts(s1, txs, tx.call.holder);
    var n := Nonce(s, tx.call.holder);
    NextMod(n, k);
    PermitIsExact(Run(s1, txs), again, tx.call);
    NoReturn(n, k + 1);
  }

  lemma NoReturn(n: nat, k: nat)
    requires n < MODULUS && 0 < k < MODULUS
    ensures (n + k) % MODULUS != n
  {
    if n + k >= MODULUS { assert (n + k) % MODULUS == n + k - MODULUS; }
  }

  class Dai {
    var totalSupply: uint256
    var balanceOf: map<Address, uint256>
    var allowance: map<(Address, Address), uint256>
    var nonces: map<Address, uint256>
    var wards: map<Address, uint256>

    ghost function Now(): State
      reads this
    {
      State(totalSupply, balanceOf, allowance, nonces, wards)
    }

    constructor (sender: Address)
      ensures Now() == Deployed(sender) && Balanced(Now())
    {
      totalSupply, balanceOf, allowance, nonces, wards := 0, map[], map[], map[], map[sender := 1];
    }

    /** The new storage of a call is its outcome; a revert undoes every write. */
    ghost predicate Agrees(r: Option<State>, before: State, ok: bool)
      reads this
    {
      ok == r.Some? && Now() == if r.Some? then r.value else before
    }

    method Rely(sender: Address, guy: Address) returns (ok: bool)
      modifies this
      ensures Agrees(Outcome(old(Now()), sender, Call.Rely(guy)), old(Now()), ok)
    {
      ok := sender in wards && wards[sender] == 1;
      if ok { wards := wards[guy := 1]; }
    }

    method Deny(sender: Address, guy: Address) returns (ok: bool)
      modifies this
      ensures Agrees(Outcome(old(Now()), sender, Call.Deny(guy)), old(Now()), ok)
    {
      ok := sender in wards && wards[sender] == 1;
      if ok { wards := wards[guy := 0]; }
    }

    /** The allowance check shared by transferFrom and burn. */
    method SpendAllowance(sender: Address, src: Address, wad: uint256) returns (ok: bool)
      modifies this`allowance
      ensures Agrees(Spend(old(Now()), sender, src, wad), old(Now()), ok)
    {
      var limit: uint256 := if (src, sender) in allowance then allowance[(src, sender)] else 0;
      if src != sender && limit != MAX {
        if limit < wad { return false; }
        var left := Sub(limit, wad);
        if left.None? { return false; }
        allowance := allowance[(src, sender) := left.value];
      }
      ok := true;
    }

    method TransferFrom(sender: Address, src: Address, dst: Address, wad: uint256) returns (ok: bool)
      requires Balanced(Now())
      modifies this
      ensures Agrees(Outcome(old(Now()), sender, Call.TransferFrom(src, dst, wad)), old(Now()), ok)
      ensures Balanced(Now())
    {
      TransferKeepsBalance(Now(), sender, src, dst, wad);
      var have: uint256 := if src in balanceOf then balanceOf[src] else 0;
      if have < wad { return false; }
      ok := SpendAllowance(sender, src, wad);
      if !ok { return; }
      var rest := Sub(have, wad);
      SubIsChecked(have, wad);
      balanceOf := balanceOf[src := rest.value];
      var to: uint256 := if dst in balanceOf then balanceOf[dst] else 0;
      var more := Add(to, wad);
      balanceOf := balanceOf[dst := more.value];
    }

    method Mint(sender: Address, usr: Address, wad: uint256) returns (ok: bool)
      requires Balanced(Now())
      modifies this
      ensures Agrees(Outcome(old(Now()), sender, Call.Mint(usr, wad)), old(Now()), ok)
      ensures Balanced(Now())
    {
      MintKeepsBalance(Now(), sender, usr, wad);
      if !(sender in wards && wards[sender] == 1) { return false; }
      var more := Add(if usr in balanceOf then balanceOf[usr] else 0, wad);
      var supply := Add(totalSupply, wad);
      if more.None? || supply.None? { return false; }
      balanceOf, totalSupply := balanceOf[usr := more.value], supply.value;
      ok := true;
    }

    method Burn(sender: Address, usr: Address, wad: uint256) returns (ok: bool)
      requires Balanced(Now())
      modifies this
      ensures Agrees(Outcome(old(Now()), sender, Call.Burn(usr, wad)), old(Now()), ok)
      ensures Balanced(Now())
    {
      BurnKeepsBalance(Now(), sender, usr, wad);
      var have: uint256 := if usr in balanceOf then balanceOf[usr] else 0;
      if have < wad { return false; }
      ok := SpendAllowance(sender, usr, wad);
      if !ok { return; }
      var rest, supply := Sub(have, wad), Sub(totalSupply, wad);
      balanceOf, totalSupply := balanceOf[usr := rest.value], supply.value;
    }

    method Approve(sender: Address, usr: Address, wad: uint256)
      modifies this`allowance
      ensures Agrees(Outcome(old(Now()), sender, Call.Approve(usr, wad)), old(Now()), true)
    {
      allowance := allowance[(sender, usr) := wad];
    }

    method Permit(holder: Address, spender: Address, nonce: uint256, expiry: uint256, allowed: bool,
                  signer: Address, now: uint256) returns (ok: bool)
      modifies this`allowance, this`nonces
      ensures forall sender ::
                var call := Call.Permit(holder, spender, nonce, expiry, allowed, signer, now);
                Agrees(Outcome(old(Now()), sender, call), old(Now()), ok)
    {
      if holder == 0 || holder != signer { return false; }
      if expiry != 0 && now > expiry { return false; }
      var current: uint256 := if holder in nonces then nonces[holder] else 0;
      if nonce != current { return false; }
      nonces := nonces[holder := (current + 1) % MODULUS];
      allowance := allowance[(holder, spender) := if allowed then MAX else 0];
      ok := true;
    }

    method Transfer(sender: Address, dst: Address, wad: uint256) returns (ok: bool)
      requires Balanced(Now())
      modifies this
      ensures Agrees(Outcome(old(Now()), sender, Call.Transfer(dst, wad)), old(Now()), ok) && Balanced(Now())
    {
      ok := TransferFrom(sender, sender, dst, wad);
    }

    method Push(sender: Address, usr: Address, wad: uint256) returns (ok: bool)
      requires Balanced(Now())
      modifies this
      ensures Agrees(Outcome(old(Now()), sender, Call.Push(usr, wad)), old(Now()), ok) && Balanced(Now())
    {
      ok := TransferFrom(sender, sender, usr, wad);
    }

    method Pull(sender: Address, usr: Address, wad: uint256) returns (ok: bool)
      requires Balanced(Now())
      modifies this
      ensures Agrees(Outcome(old(Now()), sender, Call.Pull(usr, wad)), old(Now()), ok) && Balanced(Now())
    {
      ok := TransferFrom(sender, usr, sender, wad);
    }

    method Move(sender: Address, src: Address, dst: Address, wad: uint256) returns (ok: bool)
      requires Balanced(Now())
      modifies this
      ensures Agrees(Outcome(old(Now()), sender, Call.Move(src, dst, wad)), old(Now()), ok) && Balanced(Now())
    {
      ok := TransferFrom(sender, src, dst, wad);
    }
  }
}
