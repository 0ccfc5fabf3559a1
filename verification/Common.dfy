/** Shared value types: optional values, fallible results and checked 32-bit arithmetic. */
module Common {

  datatype Option<+T> = None | Some(value: T)

  const U32_MAX: int := 0xFFFF_FFFF

  type u32 = x: int | 0 <= x <= U32_MAX

  const I64_MAX: int := 0x7FFF_FFFF_FFFF_FFFF

  type u64 = x: int | 0 <= x <= 0xFFFF_FFFF_FFFF_FFFF

  /** The cast of a `u64` to `i64`: it wraps around. */
  function AsI64(x: u64): int { if x <= I64_MAX then x else x - 0x1_0000_0000_0000_0000 }

  /** The outcome of `u32` arithmetic. `Overflow` is where a Rust debug build panics and a
      release build wraps; the model claims nothing beyond it. */
  datatype Checked<+T> = Value(v: T) | Overflow

  /** What computing a replica count from a metric gives: a count, an error return, or a panic. */
  datatype Calculated = Replicas(n: u32) | Error | Panic

  function Min(a: int, b: int): int { if a <= b then a else b }

  function Max(a: int, b: int): int { if a <= b then b else a }

  /** The next element a hash collection's iterator yields: any of those left. */
  method Next<T>(todo: set<T>) returns (x: T)
    requires todo != {}
    ensures x in todo
  {
    x :| x in todo;
  }

  lemma KeyOf<K, V>(m: map<K, V>, v: V) returns (k: K)
    requires v in m.Values
    ensures k in m && m[k] == v
  {
    k :| k in m && m[k] == v;
  }

  lemma SubsetSize<T>(a: set<T>, b: set<T>)
    requires a <= b
    ensures |a| <= |b|
  {
    assert b == a + (b - a);
  }

  /** A name with the prefix that is not taken; it stands for a random suffix that does not collide. */
  method FreshName(taken: set<string>, prefix: string) returns (name: string)
    ensures name !in taken && prefix <= name
  {
    var longest: nat := 0;
    var todo := taken;
    while todo != {}
      invariant forall k :: k in taken - todo ==> |k| <= longest
    {
      var k := Next(todo);
      if |k| > longest { longest := |k|; }
      todo := todo - {k};
    }
    name := prefix + seq(longest + 1, _ => '0');
    assert |name| > longest;
    assert taken - {} == taken;
  }
}
