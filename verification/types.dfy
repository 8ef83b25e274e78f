/** Basic types shared by every part of the HTTP server model: optional
    values, bytes, the 32-bit FreeRTOS tick type and the ESP-IDF error codes
    the component returns. */
module Types {

  /** A value that may be absent; stands in for a C null pointer. */
  datatype Option<+T> = None | Some(value: T)

  /** An unsigned 8-bit value, the unit of file contents and response bodies. */
  newtype byte = x: int | 0 <= x < 256

  type bytes = seq<byte>

  const TickModulus: int := 0x1_0000_0000

  /** FreeRTOS `TickType_t` on the ESP32: an unsigned 32-bit integer. */
  newtype tick = x: int | 0 <= x < 0x1_0000_0000

  /** The `esp_err_t` codes the component produces or passes through.
      `Other` carries any further code an external component (the HTTP
      engine, the flash driver) may return. */
  datatype Err =
    | Ok
    | Fail
    | InvalidArg
    | InvalidState
    | Timeout
    | NotFound
    | NotSupported
    | HttpdInvalidReq
    | Other(code: int)

  /** The i-th result of a scripted sequence of engine calls; calls past the
      end of the script succeed. */
  function RcAt(rcs: seq<Err>, i: nat): Err
  {
    if i < |rcs| then rcs[i] else Ok
  }

  /** The index of the first of the first `n` scripted calls that fails, or
      `n` when none of them does. */
  function FirstFailure(rcs: seq<Err>, n: nat): (k: nat)
    ensures k <= n
    ensures forall i :: 0 <= i < k ==> RcAt(rcs, i) == Ok
    ensures k < n ==> RcAt(rcs, k) != Ok
  {
    if n == 0 then 0
    else
      var k := FirstFailure(rcs, n - 1);
      if k < n - 1 then k
      else if RcAt(rcs, n - 1) != Ok then n - 1
      else n
  }

  /** The first failure is the one index with no failure before it. */
  lemma FirstFailureIs(rcs: seq<Err>, n: nat, k: nat)
    requires k <= n
    requires forall i :: 0 <= i < k ==> RcAt(rcs, i) == Ok
    requires k < n ==> RcAt(rcs, k) != Ok
    ensures FirstFailure(rcs, n) == k
  {
  }
}
