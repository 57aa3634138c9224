/**
 * What rating.js keeps in `localStorage`, modelled as a map from key to text: the rating of a lesson
 * under `lesson_rating_<id>` and its completion flag under `lesson_completed_<id>`.
 */
module RatingStorage {
  import opened JsNumber

  type Storage = map<string, string>

  function RatingKey(lessonId: string): string {
    "lesson_rating_" + lessonId
  }

  function CompletedKey(lessonId: string): string {
    "lesson_completed_" + lessonId
  }

  /** The lesson is recorded as completed. */
  predicate Completed(storage: Storage, lessonId: string) {
    CompletedKey(lessonId) in storage && storage[CompletedKey(lessonId)] == "true"
  }

  /** `m` and `m'` hold the same entries, except perhaps under the keys in `keys`. */
  ghost predicate SameExcept(m: Storage, m': Storage, keys: set<string>) {
    forall k :: k !in keys ==> (k in m <==> k in m') && (k in m && k in m' ==> m[k] == m'[k])
  }

  /** `localStorage.getItem(key) || '0'`: the stored text, a missing or empty entry reading as "0". */
  function StoredOrZero(storage: Storage, key: string): string {
    if key in storage && storage[key] != "" then storage[key] else "0"
  }

  /** The rating `initStarRating` loads for a lesson (rating.js:26). */
  function LoadedRating(storage: Storage, lessonId: string): Number {
    ParseInt(StoredOrZero(storage, RatingKey(lessonId)))
  }

  /** The storage after `updateCompletionStatus(lessonId, rating)` (rating.js:116-124). */
  function CompletionWrite(storage: Storage, lessonId: string, rating: Number): Storage {
    if rating == Int(3) then storage[CompletedKey(lessonId) := "true"] else storage
  }

  /** The storage after `handleStarClick(rating, lessonId)` (rating.js:63 and 69). */
  function ClickWrite(storage: Storage, lessonId: string, rating: nat): Storage {
    CompletionWrite(storage[RatingKey(lessonId) := DecimalString(rating)], lessonId, Int(rating))
  }

  /** The storage after a series of clicks on the stars of one lesson. */
  function ClickSeries(storage: Storage, lessonId: string, ratings: seq<nat>): Storage
    decreases |ratings|
  {
    if ratings == [] then storage
    else ClickSeries(ClickWrite(storage, lessonId, ratings[0]), lessonId, ratings[1..])
  }

  /** No rating key is a completion key, whatever the two lessons. */
  lemma KeysDistinct(lessonId: string, other: string)
    ensures RatingKey(lessonId) != CompletedKey(other)
  {
    assert RatingKey(lessonId)[7] == 'r';
    assert CompletedKey(other)[7] == 'c';
  }

  /**
   * The completion flag is set after the write iff the rating is 3 or it was set before; it is
   * only ever written with "true", and no other entry changes.
   */
  lemma CompletionWriteEffect(storage: Storage, lessonId: string, rating: Number)
    ensures var after := CompletionWrite(storage, lessonId, rating);
      && (Completed(after, lessonId) <==> rating == Int(3) || Completed(storage, lessonId))
      && (rating != Int(3) ==> after == storage)
      && (CompletedKey(lessonId) in after ==> after[CompletedKey(lessonId)] == "true" || after == storage)
      && SameExcept(storage, after, {CompletedKey(lessonId)})
  {
  }

  /**
   * A click on star `rating` stores its decimal text under the rating key, sets the completion flag iff
   * the rating is 3 (keeping it if it was set), and leaves every other entry as it was.
   */
  lemma ClickWriteEffect(storage: Storage, lessonId: string, rating: nat)
    ensures var after := ClickWrite(storage, lessonId, rating);
      && RatingKey(lessonId) in after && after[RatingKey(lessonId)] == DecimalString(rating)
      && (Completed(after, lessonId) <==> rating == 3 || Completed(storage, lessonId))
      && SameExcept(storage, after, {RatingKey(lessonId), CompletedKey(lessonId)})
      && (rating != 3 ==> SameExcept(storage, after, {RatingKey(lessonId)}))
  {
    KeysDistinct(lessonId, lessonId);
    var written := storage[RatingKey(lessonId) := DecimalString(rating)];
    CompletionWriteEffect(written, lessonId, Int(rating));
    assert Completed(written, lessonId) == Completed(storage, lessonId);
  }

  /** Once a lesson is completed, no series of clicks on its stars clears the flag. */
  lemma {:induction false} CompletedStaysCompleted(storage: Storage, lessonId: string, ratings: seq<nat>)
    requires Completed(storage, lessonId)
    ensures Completed(ClickSeries(storage, lessonId, ratings), lessonId)
    decreases |ratings|
  {
    if ratings != [] {
      ClickWriteEffect(storage, lessonId, ratings[0]);
      CompletedStaysCompleted(ClickWrite(storage, lessonId, ratings[0]), lessonId, ratings[1..]);
    }
  }

  /** The completion entry only ever holds "true" once clicks have written it. */
  lemma {:induction false} CompletedOnlyTrue(storage: Storage, lessonId: string, ratings: seq<nat>)
    requires CompletedKey(lessonId) in storage ==> storage[CompletedKey(lessonId)] == "true"
    ensures var after := ClickSeries(storage, lessonId, ratings);
      CompletedKey(lessonId) in after ==> after[CompletedKey(lessonId)] == "true"
    decreases |ratings|
  {
    if ratings != [] {
      KeysDistinct(lessonId, lessonId);
      CompletedOnlyTrue(ClickWrite(storage, lessonId, ratings[0]), lessonId, ratings[1..]);
    }
  }

  /** A missing or empty rating entry loads as rating 0. */
  lemma LoadedRatingDefault(storage: Storage, lessonId: string)
    requires RatingKey(lessonId) !in storage || storage[RatingKey(lessonId)] == ""
    ensures LoadedRating(storage, lessonId) == Int(0)
  {
    ParseIntRoundTrip(0);
  }

  /** A rating stored as its decimal text loads as that rating. */
  lemma LoadedRatingStored(storage: Storage, lessonId: string, rating: nat)
    requires RatingKey(lessonId) in storage && storage[RatingKey(lessonId)] == DecimalString(rating)
    ensures LoadedRating(storage, lessonId) == Int(rating)
  {
    ParseIntRoundTrip(rating);
  }

  /**
   * A rating stored with white space or a `+` in front of its decimal text loads as that rating
   * all the same, and a stored 3 of that kind records completion at start-up.
   */
  lemma LoadedRatingUntidy(storage: Storage, lessonId: string, w: string, sign: string, rating: nat)
    requires forall k :: 0 <= k < |w| ==> IsStrWhiteSpace(w[k])
    requires sign == "" || sign == "+"
    requires RatingKey(lessonId) in storage && storage[RatingKey(lessonId)] == w + sign + DecimalString(rating)
    ensures LoadedRating(storage, lessonId) == Int(rating)
    ensures Completed(CompletionWrite(storage, lessonId, LoadedRating(storage, lessonId)), lessonId)
      <==> rating == 3 || Completed(storage, lessonId)
  {
    var text := storage[RatingKey(lessonId)];
    assert |text| > 0;
    assert StoredOrZero(storage, RatingKey(lessonId)) == text;
    ParseIntPaddedDecimal(w, sign, rating);
    CompletionWriteEffect(storage, lessonId, Int(rating));
  }

  /** Reloading the page after a click loads the clicked rating. */
  lemma ReloadRoundTrip(storage: Storage, lessonId: string, rating: nat)
    ensures LoadedRating(ClickWrite(storage, lessonId, rating), lessonId) == Int(rating)
  {
    ClickWriteEffect(storage, lessonId, rating);
    LoadedRatingStored(ClickWrite(storage, lessonId, rating), lessonId, rating);
  }
}
