/**
 The default methods of the contract-facing API traits: the 32-byte
 big-endian export of a `BigUint`, the argument-count check run before an
 endpoint body, and the contract's own balance. A `BigUint` is seen here
 through its value; its big-endian bytes are taken to be the minimal ones
 (no leading zero byte, none at all for 0), and `byte_length` to count them.
 */
module ContractApi {
  import opened RustCore
  import opened BigEndian

  // ---------------------------------------------------------------------
  // copy_to_array_big_endian_pad_right
  // ---------------------------------------------------------------------

  /** `byte_length`. */
  function ByteLength(v: nat): (n: nat)
  {
    |ToBytesBE(v)|
  }

  /** `copy_to_slice_big_endian` into a slice of exactly the byte length:
      the slice becomes the big-endian bytes. */
  function CopyToSliceBigEndian(v: nat, slice: seq<u8>): (r: seq<u8>)
    requires |slice| == ByteLength(v)
    ensures |r| == |slice| && FromBytesBE(r) == v
  {
    ToBytesBE(v)
  }

  /** `copy_to_array_big_endian_pad_right`: traps when the value needs more
      than 32 bytes; otherwise the bytes go into the last `n` positions of
      the target and the first `32 - n` keep what the target held. */
  function CopyToArrayBigEndianPadRight(v: nat, target: seq<u8>): (r: Outcome<seq<u8>>)
    requires |target| == 32
    ensures r.Trap? <==> ByteLength(v) > 32
    ensures r.Done? ==>
      var n := ByteLength(v);
      && |r.value| == 32
      && r.value[..32 - n] == target[..32 - n]
      && r.value[32 - n..] == ToBytesBE(v)
  {
    var byteLen := ByteLength(v);
    if byteLen > 32 then Trap
    else Done(target[..32 - byteLen] + CopyToSliceBigEndian(v, target[32 - byteLen..]))
  }

  /** The export traps exactly for values of 2^256 and above. */
  lemma ExportTrapsIffTooLarge(v: nat, target: seq<u8>)
    requires |target| == 32
    ensures CopyToArrayBigEndianPadRight(v, target).Trap? <==> v >= Pow256(32)
  {
    ByteLengthBound(v, 32);
  }

  /** Into a zeroed target, the export is the 32-byte big-endian word of the
      value: reading it back gives the value. */
  lemma ExportIntoZeroedRoundTrips(v: nat, target: seq<u8>)
    requires |target| == 32 && forall i :: 0 <= i < 32 ==> target[i] == 0
    requires v < Pow256(32)
    ensures CopyToArrayBigEndianPadRight(v, target).Done?
    ensures FromBytesBE(CopyToArrayBigEndianPadRight(v, target).value) == v
  {
    ByteLengthBound(v, 32);
    var n := ByteLength(v);
    var r := CopyToArrayBigEndianPadRight(v, target).value;
    assert r == target[..32 - n] + ToBytesBE(v);
    LeadingZerosIgnored(target[..32 - n], ToBytesBE(v));
  }

  /** Zero has no bytes, so exporting it leaves the target as it was. */
  lemma ExportOfZeroKeepsTarget(target: seq<u8>)
    requires |target| == 32
    ensures CopyToArrayBigEndianPadRight(0, target) == Done(target)
  {
    assert ByteLength(0) == 0 by { assert ToBytesBE(0) == []; }
    assert CopyToSliceBigEndian(0, target[32..]) == [];
    assert target[..32] + [] == target;
  }

  /** 300 is `[0x01, 0x2C]`. Exported into any 32-byte target, those two
      bytes land at the end and the first 30 keep what the target held; so
      into a zeroed target, 300 exports as 30 zero bytes followed by them. */
  lemma Export300(target: seq<u8>)
    requires |target| == 32
    ensures ToBytesBE(300) == [0x01, 0x2C]
    ensures CopyToArrayBigEndianPadRight(300, target) == Done(target[..30] + [0x01, 0x2C])
    ensures var zeros := seq(32, _ => 0);
            CopyToArrayBigEndianPadRight(300, zeros) == Done(seq(30, _ => 0) + [0x01, 0x2C])
  {
    assert ToBytesBE(1) == [0x01];
    assert ToBytesBE(300) == [0x01, 0x2C];
    var zeros: seq<u8> := seq(32, _ => 0);
    assert zeros[..30] == seq(30, _ => 0);
  }

  // ---------------------------------------------------------------------
  // check_num_arguments
  // ---------------------------------------------------------------------

  const WRONG_NUMBER_OF_ARGUMENTS: string := "wrong number of arguments"

  /** What the host call interface shows this check: the call's arguments,
      the results finished so far, and the errors signalled so far. */
  datatype CallIO = CallIO(args: seq<seq<u8>>, finished: seq<seq<u8>>, errors: seq<string>)

  /** `get_num_arguments`. */
  function GetNumArguments(io: CallIO): (n: i32)
    requires |io.args| <= I32_MAX
  {
    |io.args|
  }

  /** `check_num_arguments`: the expected count is accepted; one argument
      more is accepted too, that last argument being a callback name that
      is finished straight back; any other count signals an error. */
  function CheckNumArguments(io: CallIO, expected: i32): (r: (CallIO, bool))
    requires |io.args| <= I32_MAX
    requires expected >= 0
    ensures r.1 <==> |io.args| == expected || |io.args| == expected + 1
    ensures r.0.args == io.args
    ensures |io.args| == expected ==> r.0 == io
    ensures |io.args| == expected + 1 ==>
      r.0 == io.(finished := io.finished + [io.args[|io.args| - 1]])
    ensures !r.1 ==> r.0 == io.(errors := io.errors + [WRONG_NUMBER_OF_ARGUMENTS])
  {
    var nrArgs := GetNumArguments(io);
    if nrArgs == WrappingAddI32(expected, 1) then
      var callbackNameArg := io.args[nrArgs - 1];
      (io.(finished := io.finished + [callbackNameArg]), true)
    else if nrArgs != expected then
      (io.(errors := io.errors + [WRONG_NUMBER_OF_ARGUMENTS]), false)
    else
      (io, true)
  }

  // ---------------------------------------------------------------------
  // get_own_balance
  // ---------------------------------------------------------------------

  datatype Address = Address(bytes: seq<u8>)

  /** The blockchain state the hook API reads: the contract's owner and the
      balance the host reports for each account. */
  datatype Chain = Chain(owner: Address, balance: map<Address, nat>)

  function GetOwner(chain: Chain): (owner: Address) {
    chain.owner
  }

  /** `get_balance`: accounts the host does not list hold nothing. */
  function GetBalance(chain: Chain, address: Address): (amount: nat) {
    if address in chain.balance then chain.balance[address] else 0
  }

  /** `get_own_balance`: the balance of the owner's account. */
  function GetOwnBalance(chain: Chain): (r: nat)
    ensures chain.owner in chain.balance ==> r == chain.balance[chain.owner]
    ensures chain.owner !in chain.balance ==> r == 0
  {
    GetBalance(chain, GetOwner(chain))
  }

  /** The own balance depends on the owner's account and nothing else. */
  lemma OwnBalanceIgnoresOtherAccounts(chain: Chain, other: Address, amount: nat)
    requires other != chain.owner
    ensures GetOwnBalance(chain.(balance := chain.balance[other := amount])) == GetOwnBalance(chain)
  {
  }

  /** Setting the owner's account to an amount is what the own balance then
      reads back. */
  lemma OwnBalanceReadsOwnerUpdate(chain: Chain, amount: nat)
    ensures GetOwnBalance(chain.(balance := chain.balance[chain.owner := amount])) == amount
  {
  }
}
