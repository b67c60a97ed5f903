/** Vocabulary shared by every module: optional values, safe-integer counters and timestamps. */
module Common {

  datatype Option<+T> = None | Some(value: T)

  /** The value if there is one, else a default. */
  function OrElse<T>(a: Option<T>, default: T): T {
    if a.Some? then a.value else default
  }

  /** The first of two optional values that is there. */
  function Either<T>(a: Option<T>, b: Option<T>): Option<T> {
    if a.Some? then a else b
  }

  function Min(a: int, b: int): int {
    if a <= b then a else b
  }

  function Max(a: int, b: int): int {
    if a >= b then a else b
  }

  /** Number.MAX_SAFE_INTEGER, 2^53 - 1: the ceiling of every persisted counter. */
  const MAX: nat := 0x1F_FFFF_FFFF_FFFF

  type Counter = n: nat | n <= MAX

  /** A reported figure that counts only when it is above zero. */
  function Positive(n: Option<Counter>): Option<Counter> {
    if n.Some? && n.value > 0 then n else None
  }

  /** `increase`: adds one unless that would leave the safe integers; false means nothing changed. */
  function Bump(n: nat): nat {
    if n < MAX then n + 1 else n
  }

  /** `increase` by an amount; the counter is left alone when the sum would not be a safe integer. */
  function Increase(n: nat, amount: nat): nat {
    if n + amount <= MAX then n + amount else n
  }

  /** The later of two nullable instants; null never wins. */
  function Latest(a: Option<int>, b: Option<int>): Option<int> {
    if a.None? then b else if b.None? then a else if a.value >= b.value then a else b
  }

  /** The earlier of two nullable instants; null never wins. */
  function Earlier(a: Option<int>, b: Option<int>): Option<int> {
    if a.None? then b else if b.None? then a else if a.value <= b.value then a else b
  }

  lemma SubsetSize<T>(a: set<T>, b: set<T>)
    requires a <= b
    ensures |a| <= |b|
  {
    assert b == a + (b - a);
  }
}
