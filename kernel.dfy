/** `ensure_odd` of VC/Ruido/main.py and the kernel sizes the smoothing
    step derives from it. */
module Kernel {

  /** Python's `k % 2 == 1`. Python's `%` takes the sign of the divisor, so
      for a divisor of 2 it agrees with Dafny's Euclidean `%` on negative
      `k` as well. */
  predicate Odd(k: int)
  {
    k % 2 == 1
  }

  /** `ensure_odd`: the least odd integer that is at least `k`. */
  function EnsureOdd(k: int): (r: int)
    ensures Odd(r)
    ensures k <= r <= k + 1
    ensures r == k <==> Odd(k)
  {
    if k % 2 == 1 then k else k + 1
  }

  /** No odd number lies between `k` and its normalised size, so the result
      is the smallest odd size not below `k`. */
  lemma EnsureOddLeast(k: int, j: int)
    requires k <= j && Odd(j)
    ensures EnsureOdd(k) <= j
  {
  }

  /** Normalising twice is normalising once. */
  lemma EnsureOddIdempotent(k: int)
    ensures EnsureOdd(EnsureOdd(k)) == EnsureOdd(k)
  {
  }

  /** `ensure_odd` never lowers a size, so it keeps the order of sizes. */
  lemma EnsureOddMonotone(a: int, b: int)
    requires a <= b
    ensures EnsureOdd(a) <= EnsureOdd(b)
  {
  }

  /** The range of `slider_kernel`. */
  const SLIDER_MIN := 1
  const SLIDER_MAX := 31

  /** The aperture handed to `cv2.medianBlur`: `max(3, k)`. */
  function MedianAperture(k: int): (r: int)
    ensures r >= 3 && r >= k
    ensures k >= 3 ==> r == k
  {
    if k >= 3 then k else 3
  }

  /** With the slider in 1..31, the kernel for the Gaussian and mean blurs is
      odd and stays in 1..31 (an even 30 becomes 31, not 32), and the median
      aperture is odd and in 3..31. */
  lemma SliderKernel(valor: int)
    requires SLIDER_MIN <= valor <= SLIDER_MAX
    ensures Odd(EnsureOdd(valor)) && SLIDER_MIN <= EnsureOdd(valor) <= SLIDER_MAX
    ensures Odd(MedianAperture(EnsureOdd(valor))) && 3 <= MedianAperture(EnsureOdd(valor)) <= SLIDER_MAX
  {
  }

  /** An odd kernel from 3 on, such as the batch run's `kernels = [3, 7]`,
      passes through `ensure_odd` and `max(3, kk)` unchanged; any other
      size is changed by one of them. */
  lemma OddKernelsFixed(k: int)
    ensures EnsureOdd(k) == k && MedianAperture(EnsureOdd(k)) == k <==> Odd(k) && k >= 3
  {
  }
}
