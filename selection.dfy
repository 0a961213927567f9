/** Arrow-key navigation in the overlay's result list, with JavaScript's
    `%` (the remainder takes the sign of the dividend). */
module Selection {

  datatype Direction = ArrowDown | ArrowUp

  /** `a % n` in JavaScript, for a positive `n`: the remainder of the
      division truncated toward zero, so `r - a` is a multiple of `n`, `r`
      is smaller than `n` in magnitude and has the sign of `a`. */
  function JsRem(a: int, n: int): (r: int)
    requires n > 0
    ensures (r - a) % n == 0
    ensures -n < r < n
    ensures a >= 0 ==> 0 <= r
    ensures a <= 0 ==> r <= 0
    ensures a >= 0 ==> r == a % n
    ensures a < 0 ==> r == -((-a) % n)
  {
    if a >= 0 then
      var q, m := a / n, a % n;
      assert a == n * q + m;
      MulNeg(n, q);
      ModOfMultiple(-q, n);
      assert m - a == n * -q;
      m
    else
      var q, m := (-a) / n, (-a) % n;
      assert -a == n * q + m;
      ModOfMultiple(q, n);
      assert -m - a == n * q;
      -m
  }

  lemma MulNeg(n: int, j: int)
    ensures n * -j == -(n * j)
  {
  }

  lemma MulBounds(n: int, j: int)
    requires n > 0
    ensures j >= 1 ==> n * j >= n
    ensures j <= -1 ==> n * j <= -n
  {
  }

  /** A multiple of `n` leaves no remainder. */
  lemma ModOfMultiple(k: int, n: int)
    requires n > 0
    ensures (n * k) % n == 0
  {
    var x := n * k;
    var d, m := x / n, x % n;
    assert n * (k - d) == m;
    MulBounds(n, k - d);
  }

  /** `(selectedIndex + 1) % items.length`: the next item, wrapping from
      the last back to the first; from no selection (-1) the first. */
  function NavigateDown(sel: int, n: nat): (r: int)
    requires n > 0
    ensures -1 <= sel < n ==> 0 <= r < n
    ensures -1 <= sel < n - 1 ==> r == sel + 1
    ensures sel == n - 1 ==> r == 0
  {
    JsRem(sel + 1, n)
  }

  /** `(selectedIndex - 1 + items.length) % items.length`: the previous
      item, wrapping from the first to the last. */
  function NavigateUp(sel: int, n: nat): (r: int)
    requires n > 0
    ensures -1 <= sel < n ==> 0 <= r < n
    ensures 0 < sel < n ==> r == sel - 1
    ensures sel == 0 ==> r == n - 1
  {
    JsRem(sel - 1 + n, n)
  }

  function Navigate(dir: Direction, sel: int, n: nat): (r: int)
    requires n > 0
    ensures -1 <= sel < n ==> 0 <= r < n
  {
    match dir
    case ArrowDown => NavigateDown(sel, n)
    case ArrowUp => NavigateUp(sel, n)
  }

  /** On a selected item, Up undoes Down and Down undoes Up. */
  lemma NavigateRoundTrip(sel: int, n: nat)
    requires 0 <= sel < n
    ensures NavigateUp(NavigateDown(sel, n), n) == sel
    ensures NavigateDown(NavigateUp(sel, n), n) == sel
  {
  }

  /** With nothing selected, Up lands on the second-to-last item (or on the
      only one): the formula steps back from -1, not from the end. */
  lemma UpFromNoSelection(n: nat)
    requires n > 0
    ensures NavigateUp(-1, n) == if n == 1 then 0 else n - 2
  {
  }

  /** Whatever the selection, the new index stays strictly between -n and
      n; it is negative only when the old one was below -1. */
  lemma NavigateAnySelection(dir: Direction, sel: int, n: nat)
    requires n > 0
    ensures -(n as int) < Navigate(dir, sel, n) < n
    ensures Navigate(dir, sel, n) < 0 ==> sel < -1
  {
  }
}
