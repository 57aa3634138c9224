/**
 * The display of the three star buttons. A star is the set of the state classes its class list holds
 * (`text-yellow-400`, `text-slate-300`, `scale-110`); a display is the sequence of stars in document
 * order, star number `i` at index `i - 1`. Each of rating.js's update loops is a function here, star by
 * star, and the lemmas relate them: the committed display lights exactly the first `rating` stars,
 * hovering touches only stars up to the hovered one, and leaving restores the committed display.
 */
module StarDisplay {
  import opened JsNumber

  datatype StarClass = TextYellow400 | TextSlate300 | Scale110

  type Star = set<StarClass>

  /** The comparison `starNum <= rating` of rating.js, which is false when the rating is NaN. */
  predicate AtMost(pos: int, rating: Number) {
    rating.Int? && pos <= rating.v
  }

  predicate OneColour(star: Star) {
    (TextYellow400 in star) != (TextSlate300 in star)
  }

  predicate AllOneColour(d: seq<Star>) {
    forall i :: 0 <= i < |d| ==> OneColour(d[i])
  }

  /** Every star has one colour, yellow exactly at the positions up to the rating. */
  ghost predicate ShowsRating(d: seq<Star>, rating: Number) {
    forall i :: 0 <= i < |d| ==> OneColour(d[i]) && (TextYellow400 in d[i] <==> AtMost(i + 1, rating))
  }

  ghost predicate NoneScaled(d: seq<Star>) {
    forall i :: 0 <= i < |d| ==> Scale110 !in d[i]
  }

  /** Remove one colour class and add the other. */
  function Recolored(star: Star, lit: bool): Star {
    if lit then star - {TextSlate300} + {TextYellow400}
    else star - {TextYellow400} + {TextSlate300}
  }

  /** Star number `pos` as `initStarRating` creates it (rating.js:37-41). */
  function InitialStar(pos: int, rating: Number): Star {
    if AtMost(pos, rating) then {TextYellow400} else {TextSlate300}
  }

  /** Star number `pos` after `updateStars(rating)` (rating.js:76-83). */
  function UpdatedStar(star: Star, pos: int, rating: int): Star {
    Recolored(star, pos <= rating)
  }

  /** Star number `pos` after `highlightStars(rating)` (rating.js:91-95). */
  function HighlightedStar(star: Star, pos: int, rating: int): Star {
    if pos <= rating then star - {TextSlate300} + {TextYellow400, Scale110} else star
  }

  /** Star number `pos` after `restoreStars()` with the current rating `rating` (rating.js:103-111). */
  function RestoredStar(star: Star, pos: int, rating: Number): Star {
    Recolored(star - {Scale110}, AtMost(pos, rating))
  }

  /** The committed display of `n` stars for a rating, as the page is first drawn. */
  function Committed(rating: Number, n: nat): seq<Star> {
    seq(n, i => InitialStar(i + 1, rating))
  }

  function Updated(d: seq<Star>, rating: int): seq<Star> {
    seq(|d|, i requires 0 <= i < |d| => UpdatedStar(d[i], i + 1, rating))
  }

  function Highlighted(d: seq<Star>, rating: int): seq<Star> {
    seq(|d|, i requires 0 <= i < |d| => HighlightedStar(d[i], i + 1, rating))
  }

  function Restored(d: seq<Star>, rating: Number): seq<Star> {
    seq(|d|, i requires 0 <= i < |d| => RestoredStar(d[i], i + 1, rating))
  }

  /** A star with no class but the colour class `c` is the set `{c}`. */
  lemma OnlyColour(star: Star, c: StarClass)
    requires c != Scale110 && c in star
    requires Scale110 !in star
    requires c == TextYellow400 ==> TextSlate300 !in star
    requires c == TextSlate300 ==> TextYellow400 !in star
    ensures star == {c}
  {
    forall x | x in star ensures x == c {
      assert x.TextYellow400? || x.TextSlate300? || x.Scale110?;
    }
  }

  /**
   * The committed display lights exactly the first `rating` stars, scales none, and is the only
   * display that does both.
   */
  lemma CommittedIsTheDisplayOfItsRating(rating: Number, d: seq<Star>)
    ensures ShowsRating(Committed(rating, |d|), rating) && NoneScaled(Committed(rating, |d|))
    ensures ShowsRating(d, rating) && NoneScaled(d) ==> d == Committed(rating, |d|)
  {
    if ShowsRating(d, rating) && NoneScaled(d) {
      forall i | 0 <= i < |d| ensures d[i] == InitialStar(i + 1, rating) {
        if AtMost(i + 1, rating) {
          OnlyColour(d[i], TextYellow400);
        } else {
          OnlyColour(d[i], TextSlate300);
        }
      }
    }
  }

  /** For a numeric rating `r`, star `i` is yellow iff `i <= r`, and slate otherwise; NaN lights none. */
  lemma CommittedFirstLit(rating: Number, n: nat)
    ensures forall i :: 0 <= i < n ==>
      (TextYellow400 in Committed(rating, n)[i] <==> rating.Int? && i < rating.v) &&
      (TextSlate300 in Committed(rating, n)[i] <==> !(rating.Int? && i < rating.v))
  {
  }

  /**
   * After `updateStars(rating)` every star has exactly one colour, yellow iff its position is at most
   * the rating, and keeps its `scale-110` class as it was.
   */
  lemma UpdatedShowsRating(d: seq<Star>, rating: int)
    ensures |Updated(d, rating)| == |d|
    ensures ShowsRating(Updated(d, rating), Int(rating))
    ensures forall i :: 0 <= i < |d| ==> (Scale110 in Updated(d, rating)[i] <==> Scale110 in d[i])
  {
  }

  /** A click on a display that is not hovered shows the committed display of the clicked rating. */
  lemma UpdatedFromCommitted(before: Number, rating: int, n: nat)
    ensures Updated(Committed(before, n), rating) == Committed(Int(rating), n)
  {
    var d := Committed(before, n);
    forall i | 0 <= i < n ensures Updated(d, rating)[i] == Committed(Int(rating), n)[i] {
      var star := Updated(d, rating)[i];
      if i + 1 <= rating {
        OnlyColour(star, TextYellow400);
      } else {
        OnlyColour(star, TextSlate300);
      }
    }
  }

  /**
   * `highlightStars(rating)` makes the stars up to `rating` yellow and scaled, without slate, and
   * leaves every star beyond it exactly as it was.
   */
  lemma HighlightedEffect(d: seq<Star>, rating: int)
    ensures |Highlighted(d, rating)| == |d|
    ensures forall i :: 0 <= i < |d| && i + 1 <= rating ==>
      var star := Highlighted(d, rating)[i];
      TextYellow400 in star && Scale110 in star && TextSlate300 !in star
    ensures forall i :: 0 <= i < |d| && rating < i + 1 ==> Highlighted(d, rating)[i] == d[i]
  {
  }

  /** `restoreStars` draws the committed display of the current rating, whatever the display was. */
  lemma RestoredIsCommitted(d: seq<Star>, rating: Number)
    ensures Restored(d, rating) == Committed(rating, |d|)
  {
    forall i | 0 <= i < |d| ensures Restored(d, rating)[i] == Committed(rating, |d|)[i] {
      var star := Restored(d, rating)[i];
      if AtMost(i + 1, rating) {
        OnlyColour(star, TextYellow400);
      } else {
        OnlyColour(star, TextSlate300);
      }
    }
  }

  /** Hovering over any star and leaving again, with no click between, gives back the committed display. */
  lemma HoverThenLeave(rating: Number, n: nat, hovered: int)
    ensures Restored(Highlighted(Committed(rating, n), hovered), rating) == Committed(rating, n)
  {
    RestoredIsCommitted(Highlighted(Committed(rating, n), hovered), rating);
  }

  /** The display `initStarRating` draws gives every star exactly one colour. */
  lemma CommittedOneColour(rating: Number, n: nat)
    ensures AllOneColour(Committed(rating, n))
  {
  }

  /** `updateStars` leaves every star with exactly one colour, whatever the display was. */
  lemma UpdatedOneColour(d: seq<Star>, rating: int)
    ensures AllOneColour(Updated(d, rating))
  {
  }

  /** `highlightStars` keeps every star at exactly one colour. */
  lemma HighlightedOneColour(d: seq<Star>, rating: int)
    ensures AllOneColour(d) ==> AllOneColour(Highlighted(d, rating))
  {
  }

  /** `restoreStars` leaves every star with exactly one colour, whatever the display was. */
  lemma RestoredOneColour(d: seq<Star>, rating: Number)
    ensures AllOneColour(Restored(d, rating))
  {
  }

  /**
   * A click on star `rating` while the pointer is over star `hovered` (a mouse click always is):
   * without `scale-110` every star is that of the committed display of the clicked rating, and the
   * stars up to the hovered one stay scaled until the pointer leaves.
   */
  lemma ClickWhileHovered(before: Number, hovered: int, rating: int, n: nat)
    ensures |Updated(Highlighted(Committed(before, n), hovered), rating)| == n
    ensures forall i :: 0 <= i < n ==>
      Updated(Highlighted(Committed(before, n), hovered), rating)[i] - {Scale110} == Committed(Int(rating), n)[i]
    ensures forall i :: 0 <= i < n ==>
      (Scale110 in Updated(Highlighted(Committed(before, n), hovered), rating)[i] <==> i + 1 <= hovered)
  {
  }
}
