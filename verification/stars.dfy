/** The five-star rating strip drawn on the public testimonial cards and in
    the testimonial admin list. */
module Stars {
  import opened Seqs

  const StarCount := 5

  /** Five stars; star `i` (counted from 0) is filled when `i < rating`. The
      filled stars come first and their number is the rating clamped to
      `0..5`. */
  function FiveStars(rating: int): (stars: seq<bool>)
    ensures |stars| == StarCount
    ensures forall i :: 0 <= i < StarCount ==> (stars[i] <==> i < rating)
    ensures CountTrue(stars) == (if rating <= 0 then 0 else if rating >= StarCount then StarCount else rating)
  {
    CountPrefixFlags(StarCount, rating);
    seq(StarCount, i => i < rating)
  }
}
