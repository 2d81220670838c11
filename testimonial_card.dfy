/**
 * Bellator's `TestimonialCard`: an optional row of five stars, the quote, an optional avatar,
 * the author's name and an optional role. Ratings are the numbers JavaScript can hold other
 * than `NaN` and the infinities, modelled as reals.
 */
module TestimonialCard {
  import opened Wrappers

  datatype TestimonialProps = TestimonialProps(
    name: string,
    role: Option<string>,
    content: string,
    image: Option<string>,
    rating: Option<real>)

  /** What the card renders, in document order. A star row lists, star by star, whether it is
      filled. */
  datatype Element =
    | RatingText(text: string)
    | StarRow(filled: seq<bool>)
    | Quote(text: string)
    | Avatar(src: string, alt: string)
    | Name(text: string)
    | Role(text: string)

  const StarCount := 5
  const DefaultRating := 5.0

  /** `rating = 5`: the default applies when the property is omitted. */
  function EffectiveRating(rating: Option<real>): (r: real)
    ensures rating.None? ==> r == DefaultRating
    ensures rating.Some? ==> r == rating.value
  {
    rating.GetOr(DefaultRating)
  }

  /** `index < rating` for the first `n` indices. */
  function Threshold(n: nat, rating: real): (row: seq<bool>)
    ensures |row| == n
    ensures forall i | 0 <= i < n :: row[i] <==> (i as real) < rating
  {
    seq(n, i requires 0 <= i < n => (i as real) < rating)
  }

  /** The five stars: star `i` is filled exactly when `i < rating`, so the filled stars come
      first. */
  function Stars(rating: real): (row: seq<bool>)
    ensures |row| == StarCount
    ensures forall i | 0 <= i < StarCount :: row[i] <==> (i as real) < rating
    ensures forall i, j | 0 <= i < j < StarCount :: row[j] ==> row[i]
  {
    Threshold(StarCount, rating)
  }

  function CountFilled(row: seq<bool>): (n: nat)
    ensures n <= |row|
  {
    if row == [] then 0
    else CountFilled(row[..|row| - 1]) + (if row[|row| - 1] then 1 else 0)
  }

  function Clamp(k: int, lo: int, hi: int): int
    requires lo <= hi
  {
    if k < lo then lo else if k > hi then hi else k
  }

  /** For a whole-number rating `k`, the first `n` indices hold `k` filled stars, kept between
      none and all of them. */
  lemma {:induction false} ThresholdCount(n: nat, k: int)
    ensures CountFilled(Threshold(n, k as real)) == Clamp(k, 0, n)
  {
    if n > 0 {
      var row := Threshold(n, k as real);
      assert row[..n - 1] == Threshold(n - 1, k as real);
      ThresholdCount(n - 1, k);
    }
  }

  /** A whole-number rating fills `min(max(rating, 0), 5)` stars. */
  lemma FilledStars(k: int)
    ensures CountFilled(Stars(k as real)) == Clamp(k, 0, StarCount)
  {
    ThresholdCount(StarCount, k);
  }

  /** `{rating && (<stars/>)}` as written: a rating of zero is falsy, and React renders the
      falsy number itself, so the slot shows the text `0`; any other rating shows the stars. */
  function RatingSlot(rating: Option<real>): (slot: seq<Element>)
    ensures |slot| == 1
    ensures EffectiveRating(rating) == 0.0 ==> slot[0] == RatingText("0")
    ensures EffectiveRating(rating) != 0.0 ==> slot[0] == StarRow(Stars(EffectiveRating(rating)))
  {
    var r := EffectiveRating(rating);
    if r == 0.0 then [RatingText("0")] else [StarRow(Stars(r))]
  }

  /** A card rated zero shows a stray `0` where the stars would be. */
  lemma ZeroRatingRendersZero()
    ensures RatingSlot(Some(0.0)) == [RatingText("0")]
    ensures forall e | e in RatingSlot(Some(0.0)) :: !e.StarRow?
  {
  }

  /** The guard as intended: no star row, and nothing else, for a rating of zero. */
  function CorrectedRatingSlot(rating: Option<real>): (slot: seq<Element>)
    ensures EffectiveRating(rating) == 0.0 <==> slot == []
    ensures EffectiveRating(rating) != 0.0 ==> slot == [StarRow(Stars(EffectiveRating(rating)))]
  {
    var r := EffectiveRating(rating);
    if r == 0.0 then [] else [StarRow(Stars(r))]
  }

  /** The correction changes nothing but the zero rating, and never renders text. */
  lemma CorrectionOnlyAffectsZero(rating: Option<real>)
    ensures EffectiveRating(rating) != 0.0 ==> CorrectedRatingSlot(rating) == RatingSlot(rating)
    ensures forall e | e in CorrectedRatingSlot(rating) :: e.StarRow? && |e.filled| == StarCount
  {
  }

  /** `{x && (...)}` for an optional string: rendered when it is non-empty. */
  predicate Shown(s: Option<string>) {
    s.Some? && s.value != ""
  }

  /** Everything after the rating slot, in document order: the quote, then the avatar (alt the
      author's name) when there is an image, then the name, then the role when there is one. */
  function CardBody(p: TestimonialProps): (r: seq<Element>)
    ensures |r| == 2 + (if Shown(p.image) then 1 else 0) + (if Shown(p.role) then 1 else 0)
    ensures r[0] == Quote(p.content)
    ensures Shown(p.image) ==> r[1] == Avatar(p.image.value, p.name) && r[2] == Name(p.name)
    ensures !Shown(p.image) ==> r[1] == Name(p.name)
    ensures Shown(p.role) ==> r[|r| - 1] == Role(p.role.value)
  {
    [Quote(p.content)]
      + (if Shown(p.image) then [Avatar(p.image.value, p.name)] else [])
      + [Name(p.name)]
      + (if Shown(p.role) then [Role(p.role.value)] else [])
  }

  /** The text and avatar elements of the body are exactly those the properties call for. */
  lemma BodyElements(p: TestimonialProps)
    ensures forall src, alt :: Avatar(src, alt) in CardBody(p) <==> Shown(p.image) && src == p.image.value && alt == p.name
    ensures forall t :: Role(t) in CardBody(p) <==> Shown(p.role) && t == p.role.value
    ensures forall e | e in CardBody(p) :: !e.RatingText? && !e.StarRow?
  {
  }

  /** The whole card as written: the rating slot, then the body. A rating of zero puts the text
      `0` before the quote; no other text ever appears in a card. */
  function Card(p: TestimonialProps): (r: seq<Element>)
    ensures |r| == 1 + |CardBody(p)| && r[0] == RatingSlot(p.rating)[0] && r[1..] == CardBody(p)
    ensures forall t :: RatingText(t) in r <==> EffectiveRating(p.rating) == 0.0 && t == "0"
    ensures forall src, alt :: Avatar(src, alt) in r <==> Shown(p.image) && src == p.image.value && alt == p.name
    ensures forall t :: Role(t) in r <==> Shown(p.role) && t == p.role.value
  {
    BodyElements(p);
    RatingSlot(p.rating) + CardBody(p)
  }

  /** The card as intended: the corrected slot, which is empty for a rating of zero, then the
      body; no rating text ever appears. */
  function CorrectedCard(p: TestimonialProps): (r: seq<Element>)
    ensures |r| > |CorrectedRatingSlot(p.rating)| && r[..|CorrectedRatingSlot(p.rating)|] == CorrectedRatingSlot(p.rating)
    ensures r[|CorrectedRatingSlot(p.rating)|..] == CardBody(p)
    ensures forall src, alt :: Avatar(src, alt) in r <==> Shown(p.image) && src == p.image.value && alt == p.name
    ensures forall t :: Role(t) in r <==> Shown(p.role) && t == p.role.value
    ensures forall t :: RatingText(t) !in r
  {
    BodyElements(p);
    CorrectedRatingSlot(p.rating) + CardBody(p)
  }

  /** The two cards differ only for a rating of zero, where the written one has the extra `0`. */
  lemma CardsDifferOnlyAtZero(p: TestimonialProps)
    ensures EffectiveRating(p.rating) != 0.0 ==> Card(p) == CorrectedCard(p)
    ensures EffectiveRating(p.rating) == 0.0 ==> Card(p) == [RatingText("0")] + CorrectedCard(p)
  {
    CorrectionOnlyAffectsZero(p.rating);
  }

  /** A card without a rating shows five filled stars first. */
  lemma DefaultRatingFillsAllStars(p: TestimonialProps)
    requires p.rating.None?
    ensures Card(p)[0] == StarRow([true, true, true, true, true])
    ensures CountFilled(Card(p)[0].filled) == StarCount
  {
    assert Stars(DefaultRating) == [true, true, true, true, true];
    FilledStars(5);
    assert Stars(5 as real) == Stars(DefaultRating);
  }
}
