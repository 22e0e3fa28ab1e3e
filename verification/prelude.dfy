/** Vocabulary shared by every component model. */
module Prelude {

  datatype Option<+T> = None | Some(value: T)

  datatype Result<+T, +E> = Ok(value: T) | Err(error: E)

  type Byte = x: int | 0 <= x < 256

  type Bytes = seq<Byte>

  /** One more than the largest `u32` and the largest `u64`. */
  const U32_SPAN: int := 0x1_0000_0000
  const U64_SPAN: int := 0x1_0000_0000_0000_0000

  type U32 = x: int | 0 <= x < U32_SPAN

  type U64 = x: int | 0 <= x < U64_SPAN

  function Min(a: int, b: int): int {
    if a <= b then a else b
  }

  function Max(a: int, b: int): int {
    if a <= b then b else a
  }

  /** `now.duration_since(since)`, which is zero when `since` lies in the future. */
  function Elapsed(now: nat, since: nat): nat {
    if since <= now then now - since else 0
  }

  lemma TimesMonotone(a: nat, b: nat, k: nat)
    requires a <= b
    ensures a * k <= b * k
  {
    assert b * k == a * k + (b - a) * k;
  }

  lemma OneMoreTimes(n: nat, k: nat)
    ensures (n + 1) * k == n * k + k
  {
  }

  /** Time never goes backwards along a list of time stamps. */
  ghost predicate Monotone(ts: seq<nat>) {
    forall i, j :: 0 <= i <= j < |ts| ==> ts[i] <= ts[j]
  }

  /** An operation and the time at which it happens. */
  datatype Timed<+Op> = At(now: nat, op: Op)

  ghost predicate InOrder<Op>(es: seq<Timed<Op>>) {
    forall i, j :: 0 <= i <= j < |es| ==> es[i].now <= es[j].now
  }
}

/** Concatenation of a list of lists, built from the back as runs grow. */
module Lists {

  function Flatten<T>(gs: seq<seq<T>>): seq<T> {
    if gs == [] then [] else Flatten(gs[..|gs| - 1]) + gs[|gs| - 1]
  }

  lemma FlattenSnoc<T>(gs: seq<seq<T>>, g: seq<T>)
    ensures Flatten(gs + [g]) == Flatten(gs) + g
  {
    assert (gs + [g])[..|gs|] == gs;
  }
}

/** Sums of the values of a finite map, independent of iteration order. */
module MapSums {

  ghost function Total<K>(m: map<K, nat>): nat
    decreases |m|
  {
    if m == map[] then 0 else
      assert m.Keys != {};
      var k :| k in m;
      assert (m - {k}).Keys < m.Keys;
      assert |m - {k}| == |m| - 1;
      m[k] + Total(m - {k})
  }

  lemma {:induction false} TotalRemove<K>(m: map<K, nat>, k: K)
    requires k in m
    ensures Total(m) == m[k] + Total(m - {k})
    decreases |m|
  {
    assert m.Keys != {};
    var c :| c in m && Total(m) == m[c] + Total(m - {c});
    assert |m - {c}| == |m| - 1 by {
      assert (m - {c}).Keys == m.Keys - {c};
    }
    if c != k {
      assert |m - {k}| == |m| - 1 by {
        assert (m - {k}).Keys == m.Keys - {k};
      }
      TotalRemove(m - {c}, k);
      TotalRemove(m - {k}, c);
      assert m - {c} - {k} == m - {k} - {c};
    }
  }

  function ValueAt<K>(m: map<K, nat>, k: K): nat {
    if k in m then m[k] else 0
  }

  /** Maps that differ at one key have sums that differ by what is there. */
  lemma TotalChange<K>(a: map<K, nat>, b: map<K, nat>, k: K)
    requires a - {k} == b - {k}
    ensures Total(a) + ValueAt(b, k) == Total(b) + ValueAt(a, k)
  {
    if k in a {
      TotalRemove(a, k);
    } else {
      assert a - {k} == a;
    }
    if k in b {
      TotalRemove(b, k);
    } else {
      assert b - {k} == b;
    }
  }

  lemma {:induction false} TotalSubmap<K>(m: map<K, nat>, sub: map<K, nat>)
    requires sub.Keys <= m.Keys
    requires forall k :: k in sub ==> sub[k] <= m[k]
    ensures Total(sub) <= Total(m)
    decreases |sub|
  {
    if sub != map[] {
      assert sub.Keys != {};
      var k :| k in sub;
      TotalRemove(sub, k);
      TotalRemove(m, k);
      assert |sub - {k}| < |sub| by {
        assert (sub - {k}).Keys == sub.Keys - {k};
      }
      TotalSubmap(m - {k}, sub - {k});
    }
  }
}
