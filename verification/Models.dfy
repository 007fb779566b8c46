/** The values the state application passes around: fixed-width integers,
    transactions with their decoded account operation, accounts and receipts. */
module Models {
  const TWO_TO_64: int := 0x1_0000_0000_0000_0000
  const MAX_UINT64: uint64 := 0xFFFF_FFFF_FFFF_FFFF

  type uint64 = x: int | 0 <= x < 0x1_0000_0000_0000_0000
  type byte = x: int | 0 <= x < 256
  type Address = string
  type Hash = nat

  datatype Option<+T> = None | Some(value: T)

  // Go's uint64 arithmetic.
  function Wrap(x: int): uint64 {
    x % TWO_TO_64
  }

  lemma WrapAtMost(x: nat)
    ensures Wrap(x) <= x && (x <= MAX_UINT64 ==> Wrap(x) == x)
  {
  }

  lemma {:induction false} WrapMultiple(x: int, q: int)
    ensures Wrap(x + q * TWO_TO_64) == Wrap(x)
    decreases if q < 0 then -q else q
  {
    if q > 0 {
      WrapMultiple(x, q - 1);
      assert x + q * TWO_TO_64 == x + (q - 1) * TWO_TO_64 + TWO_TO_64;
    } else if q < 0 {
      WrapMultiple(x, q + 1);
      assert x + q * TWO_TO_64 == x + (q + 1) * TWO_TO_64 - TWO_TO_64;
    }
  }

  // Wrapping a summand first changes nothing.
  lemma WrapPlus(x: int, y: int)
    ensures Wrap(Wrap(x) + y) == Wrap(x + y)
  {
    var q := x / TWO_TO_64;
    assert x == q * TWO_TO_64 + Wrap(x);
    WrapMultiple(Wrap(x) + y, q);
  }

  // A wrapped difference undone by the sum.
  lemma WrapCancels(a: int, b: uint64)
    ensures Wrap(a + Wrap(b - a)) == b
  {
    WrapPlus(b - a, a);
    WrapAtMost(b);
  }

  // A summand can be replaced exactly by one that wraps to the same.
  lemma WrapSame(x: int, y: int, z: int)
    ensures Wrap(x + y) == Wrap(x + z) <==> Wrap(y) == Wrap(z)
  {
    WrapPlus(y, x);
    WrapPlus(z, x);
    if Wrap(x + y) == Wrap(x + z) {
      WrapPlus(x + y, -x);
      WrapPlus(x + z, -x);
    }
  }

  lemma WrapDiffers(x: nat, y: nat)
    requires x < y < x + TWO_TO_64
    ensures Wrap(x) != Wrap(y)
  {
    var qx, qy := x / TWO_TO_64, y / TWO_TO_64;
    assert x == qx * TWO_TO_64 + Wrap(x) && y == qy * TWO_TO_64 + Wrap(y);
  }

  datatype Permissions = Permissions(
    registerUser: bool,
    updateUser: bool,
    frozenUser: bool,
    registerDomain: bool,
    registerSubdomain: bool)

  datatype LostStore = LostStore(recoverAddr: Address, timeStamp: uint64)

  datatype Account = Account(
    cn: string,
    domain: string,
    addresses: set<Address>,
    isAdmin: bool,
    permissions: Option<Permissions>,
    isFrozen: bool,
    enableDeployContract: bool,
    isContract: bool,
    partner: string,
    lost: Option<LostStore>)

  // What the account and recovery interpreters find when they decode a transaction's
  // input, names already normalised. Undecodable stands for every decoding error.
  datatype Operation =
    | Undecodable
    | RegisterAccount(store: Account, balance: int, initialNonce: uint64)
    | RegisterDomain(store: Account, balance: int, initialNonce: uint64)
    | FreezeAccount(cn: string, domain: string, frozen: bool)
    | UpdatePermission(cn: string, domain: string, permissions: Permissions)
    | SetPartner(cn: string, domain: string)
    | LostRequest(cn: string, domain: string, recoverAddr: Address)
    | FoundRequest
    | LostReset
    | OtherOperation

  datatype InterpreterName = Base | AccountOps | Lost | Evm

  // `from` and `to` are the lower-cased names the getters return; `signer` is what
  // signature recovery yields, None when it fails.
  datatype Transaction = Transaction(
    from: string,
    to: string,
    interpreter: InterpreterName,
    nonce: uint64,
    gasLimit: uint64,
    gasPrice: uint64,
    value: int,
    input: seq<byte>,
    signer: Option<Address>,
    operation: Operation)
  {
    // The gas product is taken in uint64 before it becomes a big integer.
    function Cost(): int {
      value + Wrap(gasLimit * gasPrice)
    }

    static predicate Less(x: Transaction, y: Transaction) {
      x.nonce < y.nonce || (x.nonce == y.nonce && x.gasPrice > y.gasPrice)
    }
  }

  datatype Receipt = Receipt(tx: Transaction, success: bool, gasUsed: uint64, cumulativeGasUsed: uint64)

  datatype Error =
    | FromAccountNotFound
    | ToAccountNotFound
    | FrozenAccount
    | InvalidSigner
    | BalanceNotEnough
    | InvalidAccountOp
    | InvalidInput
    | DecodeFailed
    | Unauthorized
    | InvalidBalance
    | InvalidNameLength
    | InvalidNameFormat
    | InvalidDomainLength
    | InvalidDomainFormat
    | InvalidDomain
    | InvalidPermission
    | InvalidAdminField
    | AddressExists
    | AccountExists
    | AccountNotExists
    | DomainExists
    | NilPermissions
    | NonceMismatch
    | NonceTooLow
    | NonceTooHigh
    | InsufficientBalanceForGas
    | GasLimitReached
    | OutOfGas
    | VmInsufficientBalance
    | InvalidContract
}
