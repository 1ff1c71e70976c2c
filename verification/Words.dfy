/** Fixed-width words of the firmware, and the arithmetic it does on them. */
module Words {
  const TWO_TO_THE_16: int := 0x1_0000
  const TWO_TO_THE_32: int := 0x1_0000_0000

  type uint8 = x: int | 0 <= x < 0x100
  type uint16 = x: int | 0 <= x < 0x1_0000
  type uint32 = x: int | 0 <= x < 0x1_0000_0000

  function Wrap16(x: int): uint16 { x % TWO_TO_THE_16 }

  function Wrap32(x: int): uint32 { x % TWO_TO_THE_32 }

  lemma Wrap16Succ(n: int)
    ensures Wrap16(Wrap16(n) + 1) == Wrap16(n + 1)
  {
    var q := n / TWO_TO_THE_16;
    assert n + 1 == q * TWO_TO_THE_16 + (Wrap16(n) + 1);
  }

  lemma Wrap32Succ(n: int)
    ensures Wrap32(Wrap32(n) + 1) == Wrap32(n + 1)
  {
    var q := n / TWO_TO_THE_32;
    assert n + 1 == q * TWO_TO_THE_32 + (Wrap32(n) + 1);
  }

  /** The remainder of `x` by `n` once its quotient is known. */
  lemma Remainder(x: int, q: int, n: int)
    requires 0 < n && q * n <= x < q * n + n
    ensures x % n == x - q * n
  {
    var k := x / n;
    assert x == k * n + x % n;
    if k < q {
      MulMono(k + 1, q, n);
    } else if k > q {
      MulMono(q + 1, k, n);
    }
  }

  lemma MulMono(a: int, b: int, n: int)
    requires a <= b && 0 <= n
    ensures a * n <= b * n
  {
    assert (b - a) * n >= 0;
    assert (b - a) * n == b * n - a * n;
  }

  /** Equal remainders mean a difference that is a multiple. */
  lemma SameRemainder(a: int, b: int, n: int)
    requires 0 < n
    ensures a % n == b % n <==> (a - b) % n == 0
  {
    var q, r := a / n - b / n, a % n - b % n;
    assert a - b == q * n + r by {
      assert a == (a / n) * n + a % n && b == (b / n) * n + b % n;
      assert (a / n) * n - (b / n) * n == q * n;
    }
    if 0 <= r {
      Remainder(a - b, q, n);
    } else {
      assert (q - 1) * n == q * n - n;
      Remainder(a - b, q - 1, n);
    }
  }

  /** Sums of wrapped counters are the wrapped sums. */
  lemma WrapSum(a: nat, b: nat, c: nat)
    ensures Wrap32(Wrap32(a) + Wrap32(b) + c) == Wrap32(a + b + c)
  {
    var q := a / TWO_TO_THE_32 + b / TWO_TO_THE_32;
    var d := (a + b + c) - (Wrap32(a) + Wrap32(b) + c);
    assert d == q * TWO_TO_THE_32;
    Remainder(d, q, TWO_TO_THE_32);
    SameRemainder(a + b + c, Wrap32(a) + Wrap32(b) + c, TWO_TO_THE_32);
  }

  function Min(a: nat, b: nat): nat { if a < b then a else b }

  /** `now - last` on `uint32_t`. */
  function Elapsed(now: uint32, last: uint32): uint32 { Wrap32(now - last) }

  datatype Option<+T> = None | Some(value: T)
}

/** The constants of main/config.h that the behaviour depends on. */
module Config {
  const GATEWAY_NODE_ID := 0
  const MAX_CHAIN_NODES := 64
  const MAX_PLATE_LEN := 11
  const HELLO_INTERVAL_MS := 500
  const HELLO_IDLE_INTERVAL_MS := 5000
  const ACK_TIMEOUT_MS := 300
  const MAX_RETRANSMIT := 5
  const RETRY_WARN_MS := 5000
  const STATUS_QUEUE_DEPTH := 8
  const STATUS_LOCAL_INTERVAL_MS := 2000
  const LANES := 3
  const VIDEO_UDP_CHUNK_BYTES := 1400
  const VIDEO_MAX_FRAME_BYTES := 262144
  const VIDEO_QUEUE_DEPTH := 12
  const VIDEO_UPLINK_QUEUE_DEPTH := 12
  const STATUS_UPLINK_QUEUE_DEPTH := 32
  const VIDEO_HEARTBEAT_STREAM := 0xFF
  const SPI_CHUNK_BYTES := 4000
}
