/** The ERC-20 ledger (pkg/contracts/ERC20.sol): 256-bit words, unchecked where the contract is, and a
    transaction that reverts leaves everything as it was. */
module Ledger {

  const MODULUS: nat := 0x1_00000000_00000000_00000000_00000000_00000000_00000000_00000000_00000000
  const MAX_UINT: nat := MODULUS - 1
  const ADDRESSES: nat := 0x1_00000000_00000000_00000000_00000000_00000000

  type Uint256 = x: nat | x < MODULUS
  type Address = a: nat | a < ADDRESSES

  const ZERO: Address := 0

  datatype Revert =
    | InvalidSender
    | InvalidReceiver
    | InvalidApprover
    | InvalidSpender
    | InsufficientBalance
    | InsufficientAllowance
    | Overflow

  datatype Status = Done | Reverted(why: Revert)

  /** The contract's storage. A missing key reads as zero. */
  datatype Storage = Storage(balances: map<Address, Uint256>, allowances: map<(Address, Address), Uint256>,
                             totalSupply: Uint256)
  {
    function BalanceOf(a: Address): Uint256 {
      if a in balances then balances[a] else 0
    }

    function Allowance(owner: Address, spender: Address): Uint256 {
      if (owner, spender) in allowances then allowances[(owner, spender)] else 0
    }
  }

  /** The balances of all addresses below `n`, added up without bound. */
  function SumBelow(s: Storage, n: nat): nat
    requires n <= ADDRESSES
  {
    if n == 0 then 0 else SumBelow(s, n - 1) + s.BalanceOf(n - 1)
  }

  /** The balances add up to the supply, and nobody holds anything at the zero address. */
  predicate Sound(s: Storage) {
    SumBelow(s, ADDRESSES) == s.totalSupply && s.BalanceOf(ZERO) == 0
  }

  // ---------- sums ----------

  lemma {:induction false} SumSame(s: Storage, t: Storage, n: nat)
    requires n <= ADDRESSES && forall a: Address :: a < n ==> s.BalanceOf(a) == t.BalanceOf(a)
    ensures SumBelow(s, n) == SumBelow(t, n)
  {
    if n > 0 {
      SumSame(s, t, n - 1);
    }
  }

  /** Where nobody holds anything the sum is zero. */
  lemma {:induction false} EmptySum(s: Storage, n: nat)
    requires n <= ADDRESSES && s.balances == map[]
    ensures SumBelow(s, n) == 0
  {
    if n > 0 {
      EmptySum(s, n - 1);
    }
  }

  /** Setting one balance changes the sum by that much. */
  lemma SumSet(s: Storage, a: Address, v: Uint256, n: nat)
    requires n <= ADDRESSES
    ensures var t := s.(balances := s.balances[a := v]);
      SumBelow(t, n) == SumBelow(s, n) + if a < n then v - s.BalanceOf(a) else 0
  {
    if n > 0 {
      SumSet(s, a, v, n - 1);
    }
  }

  lemma {:induction false} BalanceWithin(s: Storage, a: Address, n: nat)
    requires a < n <= ADDRESSES
    ensures s.BalanceOf(a) <= SumBelow(s, n)
  {
    if a < n - 1 {
      BalanceWithin(s, a, n - 1);
    }
  }

  lemma {:induction false} TwoBalancesWithin(s: Storage, a: Address, b: Address, n: nat)
    requires a < b < n <= ADDRESSES
    ensures s.BalanceOf(a) + s.BalanceOf(b) <= SumBelow(s, n)
  {
    if b < n - 1 {
      TwoBalancesWithin(s, a, b, n - 1);
    } else {
      BalanceWithin(s, a, n - 1);
    }
  }

  /** In a sound ledger a withdrawal fits the supply, and what is added to a balance fits beside it. */
  lemma Fits(s: Storage, from: Address, to: Address, value: Uint256)
    requires Sound(s) && from != ZERO && value <= s.BalanceOf(from)
    ensures value <= s.totalSupply
    ensures to != from ==> s.BalanceOf(to) + value <= s.totalSupply
  {
    BalanceWithin(s, from, ADDRESSES);
    if to < from {
      TwoBalancesWithin(s, to, from, ADDRESSES);
    } else if from < to {
      TwoBalancesWithin(s, from, to, ADDRESSES);
    }
  }

  // ---------- the ledger without words: every operation in exact arithmetic ----------

  function WithBalance(s: Storage, a: Address, v: Uint256): Storage {
    s.(balances := s.balances[a := v])
  }

  /** `_update`'s effect: mint from zero, burn to zero, move otherwise. In a sound ledger no sum leaves its word. */
  function Update(s: Storage, from: Address, to: Address, value: Uint256): (r: (Storage, Status))
    requires Sound(s)
    ensures Sound(r.0)
    ensures r.1.Reverted? ==> r.0 == s
  {
    if from == ZERO then
      if s.totalSupply + value > MAX_UINT then (s, Reverted(Overflow))
      else if to == ZERO then (s, Done)
      else
        BalanceWithin(s, to, ADDRESSES);
        var held := s.BalanceOf(to) + value;
        SumSet(s, to, held, ADDRESSES);
        SumSame(WithBalance(s, to, held), WithBalance(s, to, held).(totalSupply := s.totalSupply + value), ADDRESSES);
        (WithBalance(s, to, held).(totalSupply := s.totalSupply + value), Done)
    else if s.BalanceOf(from) < value then (s, Reverted(InsufficientBalance))
    else
      Fits(s, from, to, value);
      var drawn := WithBalance(s, from, s.BalanceOf(from) - value);
      SumSet(s, from, s.BalanceOf(from) - value, ADDRESSES);
      if to == ZERO then
        SumSame(drawn, drawn.(totalSupply := s.totalSupply - value), ADDRESSES);
        (drawn.(totalSupply := s.totalSupply - value), Done)
      else
        SumSet(drawn, to, drawn.BalanceOf(to) + value, ADDRESSES);
        (WithBalance(drawn, to, drawn.BalanceOf(to) + value), Done)
  }

  function Transfer(s: Storage, from: Address, to: Address, value: Uint256): (r: (Storage, Status))
    requires Sound(s)
    ensures Sound(r.0) && (r.1.Reverted? ==> r.0 == s)
  {
    if from == ZERO then (s, Reverted(InvalidSender))
    else if to == ZERO then (s, Reverted(InvalidReceiver))
    else Update(s, from, to, value)
  }

  function Approve(s: Storage, owner: Address, spender: Address, value: Uint256): (r: (Storage, Status))
    requires Sound(s)
    ensures Sound(r.0) && (r.1.Reverted? ==> r.0 == s)
  {
    if owner == ZERO then (s, Reverted(InvalidApprover))
    else if spender == ZERO then (s, Reverted(InvalidSpender))
    else
      SumSame(s, s.(allowances := s.allowances[(owner, spender) := value]), ADDRESSES);
      (s.(allowances := s.allowances[(owner, spender) := value]), Done)
  }

  function SpendAllowance(s: Storage, owner: Address, spender: Address, value: Uint256): (r: (Storage, Status))
    requires Sound(s)
    ensures Sound(r.0) && (r.1.Reverted? ==> r.0 == s)
  {
    var allowed := s.Allowance(owner, spender);
    if allowed == MAX_UINT then (s, Done)
    else if allowed < value then (s, Reverted(InsufficientAllowance))
    else Approve(s, owner, spender, allowed - value)
  }

  /** A transaction: what it does, or nothing if it reverts anywhere. */
  datatype Call =
    | MintCall(to: Address, value: Uint256)
    | BurnCall(from: Address, value: Uint256)
    | TransferCall(sender: Address, to: Address, value: Uint256)
    | TransferFromCall(sender: Address, from: Address, to: Address, value: Uint256)
    | ApproveCall(sender: Address, spender: Address, value: Uint256)

  function Execute(s: Storage, call: Call): (r: (Storage, Status))
    requires Sound(s)
    ensures Sound(r.0) && (r.1.Reverted? ==> r.0 == s)
  {
    match call
    case MintCall(to, value) =>
      if to == ZERO then (s, Reverted(InvalidReceiver)) else Update(s, ZERO, to, value)
    case BurnCall(from, value) =>
      if from == ZERO then (s, Reverted(InvalidSender)) else Update(s, from, ZERO, value)
    case TransferCall(sender, to, value) => Transfer(s, sender, to, value)
    case TransferFromCall(sender, from, to, value) =>
      var (spent, first) := SpendAllowance(s, from, sender, value);
      if first.Reverted? then (s, first)
      else
        var (moved, second) := Transfer(spent, from, to, value);
        if second.Reverted? then (s, second) else (moved, Done)
    case ApproveCall(sender, spender, value) => Approve(s, sender, spender, value)
  }

  function Run(s: Storage, calls: seq<Call>): (r: Storage)
    requires Sound(s)
    ensures Sound(r)
    decreases calls
  {
    if calls == [] then s else Run(Execute(s, calls[0]).0, calls[1..])
  }

  /** The storage of a new contract. */
  function Deployed(): (s: Storage)
    ensures Sound(s) && s.totalSupply == 0
  {
    var s := Storage(map[], map[], 0);
    EmptySum(s, ADDRESSES);
    s
  }

  // ---------- what transactions mean for holders ----------

  /** A transfer to oneself that goes through changes no balance. */
  lemma SelfTransferMovesNothing(s: Storage, holder: Address, value: Uint256, a: Address)
    requires Sound(s)
    ensures Transfer(s, holder, holder, value).0.BalanceOf(a) == s.BalanceOf(a)
    ensures Transfer(s, holder, holder, value).1.Done? <==> holder != ZERO && value <= s.BalanceOf(holder)
  {
  }

  /** An update succeeds exactly if what it takes is there, or what it mints fits the supply. It changes every
      balance by what comes in less what goes out, the supply by what is minted less what is burnt, and nothing
      else. */
  lemma UpdateMovesExactly(s: Storage, from: Address, to: Address, value: Uint256, a: Address)
    requires Sound(s)
    ensures var (t, status) := Update(s, from, to, value);
      && (status.Done? <==> if from == ZERO then s.totalSupply + value <= MAX_UINT else value <= s.BalanceOf(from))
      && Sound(t) && t.allowances == s.allowances && (status.Reverted? ==> t == s)
      && (status.Done? ==>
            && t.BalanceOf(a)
                 == s.BalanceOf(a) + (if ZERO != a == to then value else 0) - (if ZERO != a == from then value else 0)
            && t.totalSupply
                 == s.totalSupply + (if from == ZERO then value else 0) - (if to == ZERO then value else 0))
  {
  }

  /** A transfer moves exactly the value, to another or to oneself, and touches nobody else. */
  lemma TransferMovesExactly(s: Storage, from: Address, to: Address, value: Uint256, a: Address)
    requires Sound(s)
    ensures var (t, status) := Transfer(s, from, to, value);
      && (status.Done? <==> from != ZERO && to != ZERO && value <= s.BalanceOf(from))
      && t.totalSupply == s.totalSupply && t.allowances == s.allowances
      && (status.Done? ==>
            t.BalanceOf(a) == s.BalanceOf(a) + (if a == to then value else 0) - (if a == from then value else 0))
  {
  }

  // ---------- what each call does, exactly ----------

  /** A new contract grants nothing and gives nothing to anybody. */
  lemma DeployedIsEmpty(a: Address, b: Address)
    ensures Deployed().BalanceOf(a) == 0 && Deployed().Allowance(a, b) == 0
  {
  }

  /** Between the two storages `value` went from one holder to another, and the supply stayed. */
  ghost predicate Moved(s: Storage, t: Storage, from: Address, to: Address, value: nat) {
    && t.totalSupply == s.totalSupply
    && forall a: Address ::
         t.BalanceOf(a) == s.BalanceOf(a) + (if a == to then value else 0) - (if a == from then value else 0)
  }

  /** No allowance has changed but that of the owner for the spender. */
  ghost predicate OthersAllowed(s: Storage, t: Storage, owner: Address, spender: Address) {
    forall o: Address, p: Address :: (o, p) != (owner, spender) ==> t.Allowance(o, p) == s.Allowance(o, p)
  }

  /** `transferFrom`: goes through exactly when the allowance and the balance cover the value and the parties are
      nonzero, the spender too unless the allowance is infinite. Then the value moves from the owner to the
      recipient, and a finite allowance is spent by it. */
  lemma TransferFromMovesExactly(s: Storage, sender: Address, from: Address, to: Address, value: Uint256)
    requires Sound(s)
    ensures var (t, status) := Execute(s, TransferFromCall(sender, from, to, value));
      var allowed := s.Allowance(from, sender);
      && (status.Done? <==> from != ZERO && to != ZERO && value <= s.BalanceOf(from)
                            && (allowed == MAX_UINT || (sender != ZERO && value <= allowed)))
      && (status.Reverted? ==> t == s)
      && (status.Done? ==>
            && Moved(s, t, from, to, value) && OthersAllowed(s, t, from, sender)
            && t.Allowance(from, sender) == if allowed == MAX_UINT then MAX_UINT else allowed - value)
  {
    var (spent, first) := SpendAllowance(s, from, sender, value);
    if first.Done? {
      forall a: Address ensures var (t, status) := Transfer(spent, from, to, value);
        && (status.Done? <==> from != ZERO && to != ZERO && value <= s.BalanceOf(from))
        && t.totalSupply == s.totalSupply && t.allowances == spent.allowances
        && (status.Done? ==>
              t.BalanceOf(a) == s.BalanceOf(a) + (if a == to then value else 0) - (if a == from then value else 0))
      {
        TransferMovesExactly(spent, from, to, value, a);
      }
    }
  }

  /** Which of its checks a `transferFrom` fails first: the allowance, the parties to it, the parties to the
      transfer, the balance. */
  lemma TransferFromReverts(s: Storage, sender: Address, from: Address, to: Address, value: Uint256)
    requires Sound(s) && Execute(s, TransferFromCall(sender, from, to, value)).1.Reverted?
    ensures var why := Execute(s, TransferFromCall(sender, from, to, value)).1.why;
      var finite := s.Allowance(from, sender) != MAX_UINT;
      && (why == InsufficientAllowance <==> finite && s.Allowance(from, sender) < value)
      && (why == InvalidApprover <==> finite && s.Allowance(from, sender) >= value && from == ZERO)
      && (why == InvalidSpender <==> finite && s.Allowance(from, sender) >= value && from != ZERO && sender == ZERO)
      && (why == InvalidSender <==> !finite && from == ZERO)
      && (why == InvalidReceiver ==> from != ZERO && to == ZERO)
      && (why == InsufficientBalance ==> from != ZERO && to != ZERO && s.BalanceOf(from) < value)
      && why != Overflow
  {
  }

  /** `transfer`: of the caller's own tokens. */
  lemma TransferCallMovesExactly(s: Storage, sender: Address, to: Address, value: Uint256)
    requires Sound(s)
    ensures var (t, status) := Execute(s, TransferCall(sender, to, value));
      && status == (if sender == ZERO then Reverted(InvalidSender) else if to == ZERO then Reverted(InvalidReceiver)
                    else if s.BalanceOf(sender) < value then Reverted(InsufficientBalance) else Done)
      && t.allowances == s.allowances
      && (status.Done? ==> Moved(s, t, sender, to, value))
  {
    forall a: Address ensures var (t, status) := Transfer(s, sender, to, value);
      && t.totalSupply == s.totalSupply
      && (status.Done? ==>
            t.BalanceOf(a) == s.BalanceOf(a) + (if a == to then value else 0) - (if a == sender then value else 0))
    {
      TransferMovesExactly(s, sender, to, value, a);
    }
  }

  /** `_mint`: goes through exactly when the account is nonzero and the supply stays below 2 to the 256. */
  lemma MintMovesExactly(s: Storage, to: Address, value: Uint256, a: Address)
    requires Sound(s)
    ensures var (t, status) := Execute(s, MintCall(to, value));
      && status == (if to == ZERO then Reverted(InvalidReceiver)
                    else if s.totalSupply + value
                            >= 0x1_00000000_00000000_00000000_00000000_00000000_00000000_00000000_00000000
                    then Reverted(Overflow) else Done)
      && t.allowances == s.allowances
      && (status.Done? ==> t.totalSupply == s.totalSupply + value
                           && t.BalanceOf(a) == s.BalanceOf(a) + if a == to then value else 0)
  {
    UpdateMovesExactly(s, ZERO, to, value, a);
  }

  /** `_burn`: goes through exactly when the account is nonzero and holds the value. */
  lemma BurnMovesExactly(s: Storage, from: Address, value: Uint256, a: Address)
    requires Sound(s)
    ensures var (t, status) := Execute(s, BurnCall(from, value));
      && status == (if from == ZERO then Reverted(InvalidSender)
                    else if s.BalanceOf(from) < value then Reverted(InsufficientBalance) else Done)
      && t.allowances == s.allowances
      && (status.Done? ==> t.totalSupply == s.totalSupply - value
                           && t.BalanceOf(a) == s.BalanceOf(a) - if a == from then value else 0)
  {
    UpdateMovesExactly(s, from, ZERO, value, a);
  }

  /** `approve`: sets the caller's allowance for the spender to the value, whatever it was, and nothing else. */
  lemma ApproveSetsExactly(s: Storage, sender: Address, spender: Address, value: Uint256)
    requires Sound(s)
    ensures var (t, status) := Execute(s, ApproveCall(sender, spender, value));
      && status == (if sender == ZERO then Reverted(InvalidApprover)
                    else if spender == ZERO then Reverted(InvalidSpender) else Done)
      && t.balances == s.balances && t.totalSupply == s.totalSupply && OthersAllowed(s, t, sender, spender)
      && (status.Done? ==> t.Allowance(sender, spender) == value)
  {
  }

  /** What a call adds to the supply. */
  function Issued(s: Storage, call: Call): int
    requires Sound(s)
  {
    if Execute(s, call).1.Reverted? then 0
    else match call
      case MintCall(_, value) => value
      case BurnCall(_, value) => -(value as int)
      case _ => 0
  }

  function TotalIssued(s: Storage, calls: seq<Call>): int
    requires Sound(s)
    decreases calls
  {
    if calls == [] then 0 else Issued(s, calls[0]) + TotalIssued(Execute(s, calls[0]).0, calls[1..])
  }

  /** What a spender moves out of an owner's balance with one call. */
  function SpentBy(s: Storage, call: Call, owner: Address, spender: Address): nat
    requires Sound(s)
  {
    if call.TransferFromCall? && call.from == owner && call.sender == spender && Execute(s, call).1.Done?
    then call.value else 0
  }

  function TotalSpent(s: Storage, calls: seq<Call>, owner: Address, spender: Address): nat
    requires Sound(s)
    decreases calls
  {
    if calls == [] then 0
    else SpentBy(s, calls[0], owner, spender) + TotalSpent(Execute(s, calls[0]).0, calls[1..], owner, spender)
  }

  lemma CallIssues(s: Storage, call: Call)
    requires Sound(s)
    ensures Execute(s, call).0.totalSupply == s.totalSupply + Issued(s, call)
  {
  }

  /** Over any run the supply moves only by what was minted and burned, and stays the sum of all balances. */
  lemma {:induction false} SupplyIsIssued(s: Storage, calls: seq<Call>)
    requires Sound(s)
    ensures Run(s, calls).totalSupply == s.totalSupply + TotalIssued(s, calls)
    ensures SumBelow(Run(s, calls), ADDRESSES) == Run(s, calls).totalSupply
    decreases calls
  {
    if calls != [] {
      CallIssues(s, calls[0]);
      SupplyIsIssued(Execute(s, calls[0]).0, calls[1..]);
    }
  }

  /** Whatever calls a deployed contract has had, its supply is what was minted less what was burned, it is
      the sum of all balances, and the zero address holds nothing. */
  lemma {:induction false} SupplySinceDeployment(calls: seq<Call>)
    ensures var s := Run(Deployed(), calls);
      && s.totalSupply == TotalIssued(Deployed(), calls) == SumBelow(s, ADDRESSES)
      && s.BalanceOf(ZERO) == 0
  {
    SupplyIsIssued(Deployed(), calls);
  }

  predicate Approves(call: Call, owner: Address, spender: Address) {
    call.ApproveCall? && call.sender == owner && call.spender == spender
  }

  lemma CallSpends(s: Storage, call: Call, owner: Address, spender: Address)
    requires Sound(s) && !Approves(call, owner, spender)
    ensures var after := Execute(s, call).0.Allowance(owner, spender);
      if s.Allowance(owner, spender) == MAX_UINT then after == MAX_UINT
      else after == s.Allowance(owner, spender) - SpentBy(s, call, owner, spender)
  {
  }

  /** Between approvals a finite allowance is spent exactly: what has been moved under it is what it has lost,
      so a spender never moves more than was granted. An infinite one never changes. */
  lemma {:induction false} AllowanceIsSpent(s: Storage, calls: seq<Call>, owner: Address, spender: Address)
    requires Sound(s) && forall c :: c in calls ==> !Approves(c, owner, spender)
    ensures var after := Run(s, calls).Allowance(owner, spender);
      if s.Allowance(owner, spender) == MAX_UINT then after == MAX_UINT
      else after + TotalSpent(s, calls, owner, spender) == s.Allowance(owner, spender)
    decreases calls
  {
    if calls != [] {
      assert calls[0] in calls;
      CallSpends(s, calls[0], owner, spender);
      var next := Execute(s, calls[0]).0;
      AllowanceIsSpent(next, calls[1..], owner, spender);
    }
  }

  // ---------- the contract ----------

  /** Arithmetic in an `unchecked` block. */
  function Wrap(x: int): (r: Uint256)
    ensures 0 <= x < MODULUS ==> r == x
  {
    x % MODULUS
  }

  class ERC20 {
    var balances: map<Address, Uint256>
    var allowances: map<(Address, Address), Uint256>
    var totalSupply: Uint256

    constructor ()
      ensures State() == Deployed() && Sound(State())
    {
      balances, allowances, totalSupply := map[], map[], 0;
      new;
      assert State() == Deployed();
    }

    function State(): Storage
      reads this
    {
      Storage(balances, allowances, totalSupply)
    }

    method UpdateBalances(from: Address, to: Address, value: Uint256) returns (status: Status)
      requires Sound(State())
      modifies this
      ensures (State(), status) == Update(old(State()), from, to, value)
    {
      if from == ZERO {
        if totalSupply + value > MAX_UINT {
          return Reverted(Overflow);
        }
        BalanceWithin(State(), to, ADDRESSES);
        totalSupply := totalSupply + value;
      } else {
        var fromBalance := State().BalanceOf(from);
        if fromBalance < value {
          return Reverted(InsufficientBalance);
        }
        Fits(State(), from, to, value);
        balances := balances[from := Wrap(fromBalance - value)];
      }
      if to == ZERO {
        totalSupply := Wrap(totalSupply - value);
      } else {
        balances := balances[to := Wrap(State().BalanceOf(to) + value)];
      }
      return Done;
    }

    method TransferTokens(from: Address, to: Address, value: Uint256) returns (status: Status)
      requires Sound(State())
      modifies this
      ensures (State(), status) == Transfer(old(State()), from, to, value)
    {
      if from == ZERO {
        return Reverted(InvalidSender);
      }
      if to == ZERO {
        return Reverted(InvalidReceiver);
      }
      status := UpdateBalances(from, to, value);
    }

    method Mint(account: Address, value: Uint256) returns (status: Status)
      requires Sound(State())
      modifies this
      ensures (State(), status) == Execute(old(State()), MintCall(account, value))
    {
      if account == ZERO {
        return Reverted(InvalidReceiver);
      }
      status := UpdateBalances(ZERO, account, value);
    }

    method Burn(account: Address, value: Uint256) returns (status: Status)
      requires Sound(State())
      modifies this
      ensures (State(), status) == Execute(old(State()), BurnCall(account, value))
    {
      if account == ZERO {
        return Reverted(InvalidSender);
      }
      status := UpdateBalances(account, ZERO, value);
    }

    method ApproveSpender(owner: Address, spender: Address, value: Uint256) returns (status: Status)
      requires Sound(State())
      modifies this
      ensures (State(), status) == Approve(old(State()), owner, spender, value)
    {
      if owner == ZERO {
        return Reverted(InvalidApprover);
      }
      if spender == ZERO {
        return Reverted(InvalidSpender);
      }
      allowances := allowances[(owner, spender) := value];
      return Done;
    }

    method Spend(owner: Address, spender: Address, value: Uint256) returns (status: Status)
      requires Sound(State())
      modifies this
      ensures (State(), status) == SpendAllowance(old(State()), owner, spender, value)
    {
      var currentAllowance := State().Allowance(owner, spender);
      if currentAllowance < MAX_UINT {
        if currentAllowance < value {
          return Reverted(InsufficientAllowance);
        }
        status := ApproveSpender(owner, spender, Wrap(currentAllowance - value));
      } else {
        return Done;
      }
    }

    /** A revert in the transfer takes the spent allowance back with it. */
    method TransferFrom(sender: Address, from: Address, to: Address, value: Uint256) returns (status: Status)
      requires Sound(State())
      modifies this
      ensures (State(), status) == Execute(old(State()), TransferFromCall(sender, from, to, value))
    {
      var before := State();
      status := Spend(from, sender, value);
      if status.Done? {
        status := TransferTokens(from, to, value);
      }
      if status.Reverted? {
        balances, allowances, totalSupply := before.balances, before.allowances, before.totalSupply;
      }
    }
  }
}
