/** Index arithmetic shared by the two audio rings: the slots that hold a window of a circular buffer. */
module Ring {

  // The index that follows `i`.
  function Next(i: nat, size: nat): (r: nat)
    requires i < size
    ensures r < size
  {
    if i + 1 == size then 0 else i + 1
  }

  // Both rings compute it as a remainder.
  lemma NextIsRemainder(i: nat, size: nat)
    requires i < size
    ensures (i + 1) % size == Next(i, size)
  {
    if i + 1 < size {
      assert (i + 1) / size == 0;
    }
  }

  // The slot reached from `base` after `k` steps.
  function Slot(base: nat, k: nat, size: nat): (r: nat)
    requires base < size && k <= size
    ensures r < size
  {
    if base + k < size then base + k else base + k - size
  }

  // The `n` elements that start at slot `base`, in ring order.
  ghost function Window<T>(buf: seq<T>, base: nat, n: nat): (w: seq<T>)
    requires base < |buf| && n <= |buf|
    ensures |w| == n
  {
    if n == 0 then [] else Window(buf, base, n - 1) + [buf[Slot(base, n - 1, |buf|)]]
  }

  lemma WindowAt<T>(buf: seq<T>, base: nat, n: nat, k: nat)
    requires base < |buf| && k < n <= |buf|
    ensures Window(buf, base, n)[k] == buf[Slot(base, k, |buf|)]
  {
    if k < n - 1 {
      WindowAt(buf, base, n - 1, k);
    }
  }

  // A store outside the window does not change it.
  lemma {:induction false} WindowFrame<T>(buf: seq<T>, base: nat, n: nat, m: nat, x: T)
    requires base < |buf| && n <= m < |buf|
    ensures Window(buf[Slot(base, m, |buf|) := x], base, n) == Window(buf, base, n)
  {
    if n > 0 {
      WindowFrame(buf, base, n - 1, m, x);
    }
  }

  // Storing in the first slot behind the window appends to it.
  lemma WindowPush<T>(buf: seq<T>, base: nat, n: nat, x: T)
    requires base < |buf| && n < |buf|
    ensures Window(buf[Slot(base, n, |buf|) := x], base, n + 1) == Window(buf, base, n) + [x]
    ensures Next(Slot(base, n, |buf|), |buf|) == Slot(base, n + 1, |buf|)
  {
    WindowFrame(buf, base, n, n, x);
  }

  // Moving the base forward drops the first element.
  lemma {:induction false} WindowPop<T>(buf: seq<T>, base: nat, n: nat)
    requires base < |buf| && 0 < n <= |buf|
    ensures Window(buf, base, n) == [buf[base]] + Window(buf, Next(base, |buf|), n - 1)
    ensures Slot(Next(base, |buf|), n - 1, |buf|) == Slot(base, n, |buf|)
  {
    if n > 1 {
      WindowPop(buf, base, n - 1);
      assert Slot(Next(base, |buf|), n - 2, |buf|) == Slot(base, n - 1, |buf|);
    }
  }
}
