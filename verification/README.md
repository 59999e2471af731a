# Managed values over a handle registry, in Dafny

This project models the core of the `elrond-wasm` smart-contract framework.
In that framework, big integers and byte buffers live in an external engine and are
reached only through integer handles. The model covers four pieces:

- **`ManagedBuffer`** (module `ManagedBuffers`). The buffer is a handle into the
  engine's buffer store. The model covers its constructors, `len`, `overwrite`,
  `append`, `append_bytes`, `to_boxed_bytes`, and the deep-copying `clone`. It also
  covers the buffer's two roles as an encoding sink: `write` and the run-time-typed
  fast path `push_specialized`.
- **`BigUint` comparison** (module `BigUintCmp`). This covers `eq`, `cmp` and
  `partial_cmp` between two `BigUint`s, all through the engine's `bi_cmp`. It also
  covers `cmp_i64`: comparing against 0 asks for the sign, and any other integer is
  stored behind a fresh handle. Finally it covers the `i32`/`i64`/`u32`/`u64`
  instances that cast their operand `as i64`.
- **The API traits' default methods** (module `ContractApi`):
  `copy_to_array_big_endian_pad_right`, `check_num_arguments` and
  `get_own_balance`. The three-state `Sign` is in `HostRegistry`.
- **Method metadata in the code generator** (module `MethodModel`): `payment_arg`,
  `token_arg`, `is_payable`, `payable_metadata`, `endpoint_name`,
  `has_variable_nr_args` and `is_module`.

The engine (module `HostRegistry`) is specified only by map semantics.

- A buffer store is a `map<Handle, seq<u8>>`.
- A big-integer store is a `map<Handle, int>`.
- Each store has a counter of the next handle to issue. A store is well formed when
  every live handle is below its counter.
- Every operation takes a store and returns a new one. Frame conditions ("every other
  handle keeps its content") are stated as predicates over the old and new stores.

Module `BigEndian` defines minimal big-endian byte strings (`to_bytes_be`) and their
magnitude order. Module `RustCore` holds the fixed-width integers, the `as` casts,
`Option`, `Ordering`, and a `Trap` outcome for `panic!`.

The name `copy_to_array_big_endian_pad_right` suggests that the leading bytes become
zero padding, but the code never writes them: they keep whatever the target array held.
The model follows the code.
`CopyToArrayBigEndianPadRight` states exactly that. `ExportIntoZeroedRoundTrips`
proves the zero-padded word only for a target that starts zeroed.

## Model

| member | source | states |
|---|---|---|
| ManagedBuffers.NewEmpty | elrond-wasm/src/types/managed/managed_buffer.rs:15-20 | allocates a handle that was not live before; its length is 0; every previously live buffer keeps its content |
| ManagedBuffers.NewFromBytes | elrond-wasm/src/types/managed/managed_buffer.rs:22-27 | allocates a fresh handle whose `to_boxed_bytes` is exactly the given bytes; every other buffer is unchanged |
| ManagedBuffers.NewFromRawHandle | elrond-wasm/src/types/managed/managed_buffer.rs:29-31 | wraps an already live handle without allocating; the result refers to that handle |
| ManagedBuffers.RawHandleAliases | elrond-wasm/src/types/managed/managed_buffer.rs:29-31 | a buffer wrapped around an existing buffer's handle is that buffer: appending through the wrapper extends the original's content |
| ManagedBuffers.Len | elrond-wasm/src/types/managed/managed_buffer.rs:33-35 | `len` is the length of what `to_boxed_bytes` returns |
| ManagedBuffers.ToBoxedBytes | elrond-wasm/src/types/managed/managed_buffer.rs:49-51 | the bytes the engine holds behind the handle, read without producing a new store; `BoxedBytesRoundTrip` shows a buffer made from them by `new_from_bytes` reads back the same bytes |
| ManagedBuffers.BoxedBytesRoundTrip | elrond-wasm/src/types/managed/managed_buffer.rs:49-51 | materializing leaves the store alone; a buffer built from the materialized bytes materializes to the same bytes |
| ManagedBuffers.Overwrite | elrond-wasm/src/types/managed/managed_buffer.rs:37-39 | content becomes exactly the new value; same live handles; every other buffer unchanged |
| ManagedBuffers.OverwriteLastWins | elrond-wasm/src/types/managed/managed_buffer.rs:37-39 | a second overwrite replaces the first completely: the store is as if only the second happened |
| ManagedBuffers.Append | elrond-wasm/src/types/managed/managed_buffer.rs:41-43 | content becomes old content followed by the other buffer's content; the other buffer (when a distinct handle) and all other buffers are unchanged |
| ManagedBuffers.AppendBytes | elrond-wasm/src/types/managed/managed_buffer.rs:45-47 | content becomes old content followed by the slice; length grows by the slice length; nothing else changes |
| ManagedBuffers.AppendBytesTwice | elrond-wasm/src/types/managed/managed_buffer.rs:45-47 | appending `s` then `t` leaves the same store as appending `s + t` once |
| ManagedBuffers.Clone | elrond-wasm/src/types/managed/managed_buffer.rs:54-61 | the clone has a fresh handle distinct from the original, with equal content; the original is untouched |
| ManagedBuffers.CloneThenAppendKeepsOriginal | elrond-wasm/src/types/managed/managed_buffer.rs:54-61 | appending to the clone changes the clone only; the original keeps its content |
| ManagedBuffers.CloneThenOverwriteKeepsOriginal | elrond-wasm/src/types/managed/managed_buffer.rs:54-61 | overwriting the clone leaves the original's content as it was |
| ManagedBuffers.Write | elrond-wasm/src/types/managed/managed_buffer.rs:67-69 | `write` appends the bytes at the end of the buffer and touches no other buffer, as `append_bytes` does |
| ManagedBuffers.PushSpecialized | elrond-wasm/src/types/managed/managed_buffer.rs:71-78 | returns true exactly when the value's run-time type is `ManagedBuffer`; the store is then exactly what `append_bytes(value.to_boxed_bytes())` gives; otherwise it returns false and nothing changes |
| ManagedBuffers.FastPathIsWrite | elrond-wasm/src/types/managed/managed_buffer.rs:71-78 | the handle-level fast path and the byte-level `write` of the buffer's content leave identical stores |
| ManagedBuffers.FastPathExample | elrond-wasm/src/types/managed/managed_buffer.rs:71-78 | "ab" with "xy" pushed on the fast path is "abxy", identical to `append_bytes(b"xy")` |
| BigUintCmp.Eq | elrond-wasm/src/types/managed/basic/big_uint_cmp.rs:9-13 | `a == b` holds exactly when the stored values are equal |
| BigUintCmp.PartialCmp | elrond-wasm/src/types/managed/basic/big_uint_cmp.rs:20-22 | always `Some`; agrees with `eq` on equality and with the stored values on less and greater |
| BigUintCmp.Cmp | elrond-wasm/src/types/managed/basic/big_uint_cmp.rs:27-29 | `Less`, `Equal` or `Greater` exactly as the stored values compare |
| BigUintCmp.CmpIsTotalOrder | elrond-wasm/src/types/managed/basic/big_uint_cmp.rs:27-29 | `cmp` is reflexive on equality, antisymmetric, and transitive, and its `Equal` coincides with `eq` |
| BigUintCmp.CmpAgreesWithBigEndianBytes | elrond-wasm/src/types/managed/basic/big_uint_cmp.rs:27-29 | the handle comparison orders two values as their minimal big-endian bytes do when read as magnitudes |
| BigUintCmp.CmpI64 | elrond-wasm/src/types/managed/basic/big_uint_cmp.rs:32-45 | the result orders the stored value against the integer; for 0 the store is returned unchanged; otherwise exactly one new handle is taken and no stored value changes |
| BigUintCmp.CmpViaHandle | elrond-wasm/src/types/managed/basic/big_uint_cmp.rs:41-44 | storing the integer behind the next handle and comparing handles orders the value against the integer, allocating one handle and keeping every stored value |
| BigUintCmp.ZeroFastPathAgrees | elrond-wasm/src/types/managed/basic/big_uint_cmp.rs:34-39 | the sign shortcut for 0 gives the same ordering as the general handle comparison against 0, without allocating |
| BigUintCmp.EqZeroIffNoSign | elrond-wasm/src/types/managed/basic/big_uint_cmp.rs:34-39 | a `BigUint` equals 0 exactly when the engine reports `NoSign` |
| BigUintCmp.EqI64 | elrond-wasm/src/types/managed/basic/big_uint_cmp.rs:49-53 | equality with an `i64` holds exactly when the stored value equals it; a nonzero operand is stored behind the one new handle, every other value is kept |
| BigUintCmp.PartialCmpI64 | elrond-wasm/src/types/managed/basic/big_uint_cmp.rs:56-60 | ordering against an `i64` is `Some` of the mathematical ordering; a nonzero operand is stored behind the one new handle, every other value is kept |
| BigUintCmp.EqI32 | elrond-wasm/src/types/managed/basic/big_uint_cmp.rs:65 | equality with an `i32` (sign-extended) holds exactly when the value equals it |
| BigUintCmp.PartialCmpI32 | elrond-wasm/src/types/managed/basic/big_uint_cmp.rs:65 | ordering against an `i32` is `Some` of the mathematical ordering |
| BigUintCmp.EqU32 | elrond-wasm/src/types/managed/basic/big_uint_cmp.rs:67 | equality with a `u32` (zero-extended) holds exactly when the value equals it |
| BigUintCmp.PartialCmpU32 | elrond-wasm/src/types/managed/basic/big_uint_cmp.rs:67 | ordering against a `u32` is `Some` of the mathematical ordering |
| BigUintCmp.EqU64 | elrond-wasm/src/types/managed/basic/big_uint_cmp.rs:68 | as written: exact below 2^63; for operands of 2^63 and above, which wrap to negative, always false; like `cmp_i64` it takes at most one new handle and keeps every stored value, and that handle holds the operand below 2^63 and the operand minus 2^64 above |
| BigUintCmp.PartialCmpU64 | elrond-wasm/src/types/managed/basic/big_uint_cmp.rs:68 | as written: exact below 2^63; `Some(Greater)` for every operand of 2^63 and above; like `cmp_i64` it takes at most one new handle and keeps every stored value, and that handle holds the operand below 2^63 and the operand minus 2^64 above |
| BigUintCmp.EqIffPartialCmpEqual | elrond-wasm/src/types/managed/basic/big_uint_cmp.rs:47-68 | for each small-integer type, `eq(x)` holds exactly when `partial_cmp(x)` is `Some(Equal)` |
| BigUintCmp.U64MaxMiscompares | elrond-wasm/src/types/managed/basic/big_uint_cmp.rs:68 | a `BigUint` holding `u64::MAX` compares unequal to, and greater than, `u64::MAX` |
| BigUintCmp.CmpU64Exact | elrond-wasm/src/types/managed/basic/big_uint_cmp.rs:68 | corrected: orders the value against the exact `u64`, with the same allocation behaviour as `cmp_i64` |
| BigUintCmp.EqU64Exact | elrond-wasm/src/types/managed/basic/big_uint_cmp.rs:68 | corrected: equality with a `u64` holds exactly when the value equals it |
| BigUintCmp.PartialCmpU64Exact | elrond-wasm/src/types/managed/basic/big_uint_cmp.rs:68 | corrected: ordering against a `u64` is `Some` of the mathematical ordering |
| BigUintCmp.U64ExactAgreesBelowWrap | elrond-wasm/src/types/managed/basic/big_uint_cmp.rs:68 | below 2^63 the corrected comparison gives the same answer and store as the written one; the corrected `eq` holds exactly when the corrected `partial_cmp` is `Some(Equal)` |
| HostRegistry.SignOf | elrond-wasm/src/lib.rs:189-193 | the three signs are distinct: `Plus` exactly for positive, `NoSign` exactly for zero, `Minus` exactly for negative values |
| BigEndian.ToBytesBE | elrond-wasm/src/lib.rs:180 | the big-endian bytes read back to the value and have no leading zero byte |
| BigEndian.ByteLengthBound | elrond-wasm/src/lib.rs:168 | a value's byte length is at most `n` exactly when the value is below 256^n |
| ContractApi.CopyToSliceBigEndian | elrond-wasm/src/lib.rs:170 | fills a slice of exactly the byte length with bytes that read back to the value |
| ContractApi.CopyToArrayBigEndianPadRight | elrond-wasm/src/lib.rs:172-178 | traps exactly when the byte length exceeds 32; otherwise the last `n` bytes are the value's big-endian bytes and the first `32 - n` are the target's, unchanged |
| ContractApi.ExportTrapsIffTooLarge | elrond-wasm/src/lib.rs:172-178 | the export traps exactly for values of 2^256 and above |
| ContractApi.ExportIntoZeroedRoundTrips | elrond-wasm/src/lib.rs:172-178 | into a zeroed target, the 32-byte result reads back as the value |
| ContractApi.ExportOfZeroKeepsTarget | elrond-wasm/src/lib.rs:172-178 | 0 has no bytes, so exporting it returns the target unchanged |
| ContractApi.Export300 | elrond-wasm/src/lib.rs:172-178 | 300 has bytes `[0x01, 0x2C]`; into any 32-byte target they land in the last two positions and the first 30 keep the target's bytes, so into a zeroed 32-byte target 300 exports as 30 zero bytes followed by `[0x01, 0x2C]` |
| ContractApi.CheckNumArguments | elrond-wasm/src/lib.rs:79-91 | the expected count gives true with no effect; one more gives true and finishes the last argument; any other count signals "wrong number of arguments" and gives false |
| ContractApi.GetOwnBalance | elrond-wasm/src/lib.rs:36-38 | the balance the host lists for the owner's address, or 0 when the owner is not listed |
| ContractApi.OwnBalanceReadsOwnerUpdate | elrond-wasm/src/lib.rs:36-38 | after the owner's account is set to an amount, the own balance is that amount |
| ContractApi.OwnBalanceIgnoresOtherAccounts | elrond-wasm/src/lib.rs:36-38 | changing any account other than the owner's leaves the own balance unchanged |
| MethodModel.FindFirst | elrond-wasm-derive/src/model/method.rs:43-55 | `None` exactly when no argument plays the role; otherwise the argument at the first position that does |
| MethodModel.PaymentArg | elrond-wasm-derive/src/model/method.rs:43-48 | the first argument whose payment metadata is `Payment`, or `None` exactly when there is none |
| MethodModel.TokenArg | elrond-wasm-derive/src/model/method.rs:50-55 | the first argument whose payment metadata is `PaymentToken`, or `None` exactly when there is none |
| MethodModel.IsPayable | elrond-wasm-derive/src/model/method.rs:57-64 | true for callbacks, false for private methods, and the annotation's payability for init and endpoints |
| MethodModel.PayableMetadata | elrond-wasm-derive/src/model/method.rs:66-73 | `AnyToken` for callbacks, `NotPayable` for private methods, the annotation's metadata for init and endpoints |
| MethodModel.IsPayableAgreesWithMetadata | elrond-wasm-derive/src/model/method.rs:57-73 | for every role, `is_payable()` equals `payable_metadata().is_payable()` |
| MethodModel.EndpointName | elrond-wasm-derive/src/model/method.rs:77-85 | `Some("init")` for init, `Some(public_name)` for endpoints, `None` exactly for every other role |
| MethodModel.UnnamedPayableUnlessPrivate | elrond-wasm-derive/src/model/method.rs:57-85 | a method with no endpoint name is payable exactly when it is not private; a named one has its annotation's payable metadata |
| MethodModel.AnyVarArgs | elrond-wasm-derive/src/model/method.rs:87-89 | true exactly when some argument has `var_args` set |
| MethodModel.HasVariableNrArgs | elrond-wasm-derive/src/model/method.rs:87-89 | true exactly when some argument of the method has `var_args` set |
| MethodModel.IsModule | elrond-wasm-derive/src/model/method.rs:91-96 | true exactly when the implementation is generated from a module |

## Findings

| source | as written | input that shows it | evidently intended | confidence | as-written member | corrected member |
|---|---|---|---|---|---|---|
| elrond-wasm/src/types/managed/basic/big_uint_cmp.rs:68 | `partial_eq_and_ord! {u64}` passes the operand through `as i64`, so values of 2^63 and above become negative | a `BigUint` holding 18446744073709551615 compared with `u64::MAX`: `==` gives false and `partial_cmp` gives `Some(Greater)` | compare against the exact unsigned value | high; not executed | BigUintCmp.EqU64, BigUintCmp.PartialCmpU64, BigUintCmp.U64MaxMiscompares | BigUintCmp.EqU64Exact, BigUintCmp.PartialCmpU64Exact, BigUintCmp.CmpU64Exact |

## Left out

- The host engine's internals. `mb_*`, `bi_cmp`, `bi_sign`, `bi_set_int64` and `next_handle` are specified by map semantics only.
- Handle numbering. `next_handle`'s implementation is not in the modelled files. The model assumes it never returns a live handle, and models it as a counter above every live handle. The frame properties of `CmpI64` and the other integer comparisons (the store keeps every value and gains one new handle) rest on that assumption.
- Invalid handles. Every operation requires its handles to be live. Touching a dead handle is a fatal boundary violation in the engine, so it is not modelled as a recoverable error.
- `BoxedBytes` is modelled as a plain `seq<u8>`.
- `TryStaticCast` run-time type identity is modelled as a tag on the value offered to `push_specialized`. Only the `ManagedBuffer` tag is distinguished.
- The generic nested and top-level codec, and the generic encoder that calls `push_specialized`. Their wire format is not defined in the modelled files.
- The I/O-facing hook methods: storage load and store, `send_tx`, `async_call`, `get_gas_left`, `sha256`, `keccak256`, `write_log`. They are host calls with no logic here.
- `signal_error_raw`, `finish_vec` and `get_argument_vec` appear only as their effect on `CallIO`, an error log and a result log. In the real host, signalling an error also ends the call.
- `get_argument_address` converts bytes to an `Address`. That conversion lives in a file that is not part of this model.
- The arithmetic and bitwise operator traits of `BigUintApi` and `BigIntApi`. Only their signatures exist in the source; the host implements them.
- `abs_uint`, `to_signed_bytes_be`, `to_bytes_be_pad_right` and `phantom`. These are declarations without default bodies.
- `CallableContract` and the `contract_proxy!` macro: debugger dispatch and a cast.
- `syn` and `proc_macro2` values (identifiers, generics, blocks, token trees). They are opaque `Syntax` text.
- `MethodPayableMetadata::is_payable` and the argument metadata types. Their definitions are in files that are not part of this model. Payability is modelled as "anything but `NotPayable`".
- The auto-generated `wasm/src/lib.rs` endpoint lists of the example contracts. They hold no logic.
- CheckNumArguments: requires `expected >= 0` and at most `i32::MAX` arguments. Generated code always passes a declared argument count, and the host reports the count as an `i32`. Within those bounds, the `i32` wrap of `expected + 1` (modelled with `WrappingAddI32`) never changes the outcome.
- GetOwnBalance: an account the host does not list is given balance 0. `get_balance` itself is a host call.
- ByteLength: `byte_length` is only declared in the trait, so the engine's count is not visible. The model takes it to be the length of the minimal big-endian bytes, so 0 has length 0 and exports as the unchanged target (`ExportOfZeroKeepsTarget`). An engine that reported one byte for 0 would write a zero into the last position instead.
