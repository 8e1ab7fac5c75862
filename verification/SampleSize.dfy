/**
 * The downsample factor the store asks the image decoder for: the power of
 * two reached by doubling from 1 while both half-dimensions divided by it are
 * still at least the requested bounds. Integer arithmetic as in Kotlin `Int`.
 */
module SampleSize {

  /** Kotlin's `Int` division, which truncates toward zero. */
  function TruncDiv(a: int, b: int): int
    requires b > 0
  {
    if a >= 0 then a / b else -((-a) / b)
  }

  predicate IsPowerOfTwo(n: int)
    decreases if n > 0 then n else 0
  {
    n == 1 || (n > 1 && n % 2 == 0 && IsPowerOfTwo(n / 2))
  }

  /** The loop guard: at factor `s` both half-dimensions still reach the bounds. */
  predicate StillTooLarge(height: int, width: int, reqWidth: int, reqHeight: int, s: int)
    requires s > 0
  {
    TruncDiv(TruncDiv(height, 2), s) >= reqHeight && TruncDiv(TruncDiv(width, 2), s) >= reqWidth
  }

  /** `s` is the factor for an image of `height` x `width` bounded by
      `reqWidth` x `reqHeight`: 1 when the image already fits, otherwise the
      least power of two at which the guard fails. */
  ghost predicate IsSampleSize(s: int, height: int, width: int, reqWidth: int, reqHeight: int) {
    && IsPowerOfTwo(s)
    && if height > reqHeight || width > reqWidth then
         && !StillTooLarge(height, width, reqWidth, reqHeight, s)
         && forall p :: IsPowerOfTwo(p) && p < s ==> StillTooLarge(height, width, reqWidth, reqHeight, p)
       else
         s == 1
  }

  /** A power of two below twice another power of two is at most that one. */
  lemma {:induction false} PowerOfTwoBelowDouble(p: int, s: int)
    requires IsPowerOfTwo(p) && IsPowerOfTwo(s) && p < 2 * s
    ensures p <= s
    decreases s
  {
    if p > 1 && s > 1 {
      PowerOfTwoBelowDouble(p / 2, s / 2);
    }
  }

  /** A truncated quotient of at least 1 means the dividend is at least the divisor. */
  lemma QuotientAtLeastOne(a: int, b: int)
    requires b > 0 && TruncDiv(a, b) >= 1
    ensures a >= b
  {
    assert a >= 0;
    assert a == b * (a / b) + a % b;
    assert b * (a / b) >= b * 1;
  }

  /** While the guard holds at `s`, it holds at every power of two below
      `2 * s`, and `2 * s` is the next power of two to try. */
  lemma GuardBelowDouble(height: int, width: int, reqWidth: int, reqHeight: int, s: int)
    requires IsPowerOfTwo(s) && StillTooLarge(height, width, reqWidth, reqHeight, s)
    requires forall p :: IsPowerOfTwo(p) && p < s ==> StillTooLarge(height, width, reqWidth, reqHeight, p)
    ensures IsPowerOfTwo(2 * s)
    ensures forall p :: IsPowerOfTwo(p) && p < 2 * s ==> StillTooLarge(height, width, reqWidth, reqHeight, p)
  {
    assert (2 * s) / 2 == s;
    forall p | IsPowerOfTwo(p) && p < 2 * s
      ensures StillTooLarge(height, width, reqWidth, reqHeight, p)
    {
      PowerOfTwoBelowDouble(p, s);
    }
  }

  /** `calculateInSampleSize`. The loop terminates because one bound is
      positive; then the factor never exceeds the image's dimension on that
      axis, so the doubling stays within `Int` for any `Int` dimensions. */
  method CalculateInSampleSize(height: int, width: int, reqWidth: int, reqHeight: int) returns (inSampleSize: int)
    requires reqWidth > 0 || reqHeight > 0
    ensures IsSampleSize(inSampleSize, height, width, reqWidth, reqHeight)
    ensures reqHeight > 0 ==> inSampleSize == 1 || inSampleSize <= height
    ensures reqWidth > 0 ==> inSampleSize == 1 || inSampleSize <= width
  {
    inSampleSize := 1;
    if height > reqHeight || width > reqWidth {
      var halfHeight := TruncDiv(height, 2);
      var halfWidth := TruncDiv(width, 2);
      while TruncDiv(halfHeight, inSampleSize) >= reqHeight && TruncDiv(halfWidth, inSampleSize) >= reqWidth
        invariant IsPowerOfTwo(inSampleSize)
        invariant forall p :: IsPowerOfTwo(p) && p < inSampleSize ==> StillTooLarge(height, width, reqWidth, reqHeight, p)
        invariant inSampleSize == 1 || StillTooLarge(height, width, reqWidth, reqHeight, inSampleSize / 2)
        decreases (if reqHeight > 0 then halfHeight else halfWidth) - inSampleSize
      {
        if reqHeight > 0 {
          QuotientAtLeastOne(halfHeight, inSampleSize);
        } else {
          QuotientAtLeastOne(halfWidth, inSampleSize);
        }
        GuardBelowDouble(height, width, reqWidth, reqHeight, inSampleSize);
        inSampleSize := inSampleSize * 2;
      }
      if inSampleSize > 1 {
        var previous := inSampleSize / 2;
        if reqHeight > 0 {
          QuotientAtLeastOne(halfHeight, previous);
        }
        if reqWidth > 0 {
          QuotientAtLeastOne(halfWidth, previous);
        }
      }
    }
  }

  /** Two factors meeting the characterisation are equal, so it pins the method's result down. */
  lemma SampleSizeUnique(s: int, t: int, height: int, width: int, reqWidth: int, reqHeight: int)
    requires IsSampleSize(s, height, width, reqWidth, reqHeight)
    requires IsSampleSize(t, height, width, reqWidth, reqHeight)
    ensures s == t
  {
  }

  /** An 8000 x 6000 image bounded to 2048 x 2048 is decoded at factor 2. */
  lemma LargePhotoExample(s: int)
    requires IsSampleSize(s, 6000, 8000, 2048, 2048)
    ensures s == 2
  {
    assert IsPowerOfTwo(2);
    assert StillTooLarge(6000, 8000, 2048, 2048, 1);
  }
}
