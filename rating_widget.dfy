/**
 * The star-rating widget of rating.js as a state machine. The page state is an object: the page path
 * and whether the page has the `star-rating-container` element (both fixed for the page), the
 * script's `currentRating`, the star buttons in document order, and `localStorage` as a map with a ghost
 * log of the keys read from it. Every handler of rating.js is a method that changes this state as the
 * script does, and its `ensures` relate the new state to the functions of StarDisplay and
 * RatingStorage, whose properties are proved there.
 */
module RatingWidget {
  import opened Wrappers
  import opened JsNumber
  import opened LessonId
  import opened StarDisplay
  import opened RatingStorage

  class StarRating {
    /** `window.location.pathname`. */
    const path: string
    /** Whether `document.getElementById('star-rating-container')` finds the element. */
    const hasContainer: bool
    var currentRating: Number
    /** The buttons `document.querySelectorAll('.star-btn')` returns, in document order. */
    var stars: array<Star>
    var storage: Storage
    /** The keys passed to `localStorage.getItem`, in order; kept only so contracts can say what is read. */
    ghost var storageReads: seq<string>

    /** There are no stars before initialisation and three after; every star has exactly one colour. */
    ghost predicate Valid()
      reads this, stars
    {
      (stars.Length == 0 || stars.Length == 3) && AllOneColour(stars[..])
    }

    /** The page as loaded, before the script initialises (`let currentRating = 0`, rating.js:15). */
    constructor (path: string, hasContainer: bool, storage: Storage)
      ensures Valid()
      ensures this.path == path && this.hasContainer == hasContainer && this.storage == storage
      ensures currentRating == Int(0) && stars.Length == 0 && storageReads == []
    {
      this.path := path;
      this.hasContainer := hasContainer;
      this.storage := storage;
      currentRating := Int(0);
      stars := new Star[0];
      storageReads := [];
    }

    /** `localStorage.getItem(key)`: the stored text, or null. */
    method GetItem(key: string) returns (value: Option<string>)
      modifies this`storageReads
      ensures storageReads == old(storageReads) + [key]
      ensures value == if key in storage then Some(storage[key]) else None
    {
      storageReads := storageReads + [key];
      value := if key in storage then Some(storage[key]) else None;
    }

    /** `localStorage.setItem(key, value)`. */
    method SetItem(key: string, value: string)
      modifies this`storage
      ensures storage == old(storage)[key := value]
    {
      storage := storage[key := value];
    }

    /**
     * `initStarRating`: without a lesson identifier in the path or without the container it changes
     * nothing and reads nothing; otherwise it reads the lesson's rating once, draws the three stars of
     * that rating and records completion when the rating is 3.
     */
    method InitStarRating()
      requires Valid() && stars.Length == 0
      modifies this
      ensures Valid()
      ensures GetLessonId(path).None? || !hasContainer ==> unchanged(this)
      ensures GetLessonId(path).Some? && hasContainer ==>
        var lessonId := GetLessonId(path).value;
        && storageReads == old(storageReads) + [RatingKey(lessonId)]
        && currentRating == LoadedRating(old(storage), lessonId)
        && fresh(stars) && stars[..] == Committed(currentRating, 3)
        && storage == CompletionWrite(old(storage), lessonId, currentRating)
    {
      var lessonId := GetLessonId(path);
      if lessonId.None? {
        return;
      }
      if !hasContainer {
        return;
      }
      var stored := GetItem(RatingKey(lessonId.value));
      currentRating := ParseInt(if stored.Some? && stored.value != "" then stored.value else "0");
      var created := CreateStars(currentRating);
      stars := created;
      CommittedOneColour(currentRating, 3);
      UpdateCompletionStatus(lessonId.value, currentRating);
    }

    /** The loop of `initStarRating` that creates star buttons 1 to 3 and colours each from `rating`. */
    static method CreateStars(rating: Number) returns (created: array<Star>)
      ensures fresh(created) && created[..] == Committed(rating, 3)
    {
      created := new Star[3];
      for i := 1 to 4
        invariant forall j :: 0 <= j < i - 1 ==> created[j] == InitialStar(j + 1, rating)
      {
        if AtMost(i, rating) {
          created[i - 1] := {TextYellow400};
        } else {
          created[i - 1] := {TextSlate300};
        }
      }
      assert created[..] == Committed(rating, 3);
    }

    /**
     * `handleStarClick(rating, lessonId)`, the click on star number `rating`: it becomes the current
     * rating, is stored as decimal text, is drawn, and records completion when it is 3.
     */
    method HandleStarClick(rating: int, lessonId: string)
      requires Valid() && 1 <= rating <= 3
      modifies this, stars
      ensures Valid() && stars == old(stars) && storageReads == old(storageReads)
      ensures currentRating == Int(rating)
      ensures storage == ClickWrite(old(storage), lessonId, rating)
      ensures stars[..] == Updated(old(stars[..]), rating)
    {
      currentRating := Int(rating);
      SetItem(RatingKey(lessonId), DecimalString(rating));
      UpdateStars(rating);
      UpdateCompletionStatus(lessonId, Int(rating));
    }

    /** `updateStars(rating)`: recolour every star from its position and `rating`. */
    method UpdateStars(rating: int)
      requires Valid()
      modifies stars
      ensures Valid() && stars[..] == Updated(old(stars[..]), rating)
    {
      for index := 0 to stars.Length
        invariant forall j :: 0 <= j < index ==> stars[j] == UpdatedStar(old(stars[j]), j + 1, rating)
        invariant forall j :: index <= j < stars.Length ==> stars[j] == old(stars[j])
      {
        var starNum := index + 1;
        if starNum <= rating {
          stars[index] := stars[index] - {TextSlate300} + {TextYellow400};
        } else {
          stars[index] := stars[index] - {TextYellow400} + {TextSlate300};
        }
      }
      UpdatedOneColour(old(stars[..]), rating);
    }

    /** `highlightStars(rating)`, the pointer entering star number `rating`. */
    method HighlightStars(rating: int)
      requires Valid()
      modifies stars
      ensures Valid() && stars[..] == Highlighted(old(stars[..]), rating)
    {
      for index := 0 to stars.Length
        invariant forall j :: 0 <= j < index ==> stars[j] == HighlightedStar(old(stars[j]), j + 1, rating)
        invariant forall j :: index <= j < stars.Length ==> stars[j] == old(stars[j])
      {
        var starNum := index + 1;
        if starNum <= rating {
          stars[index] := stars[index] - {TextSlate300} + {TextYellow400, Scale110};
        }
      }
      HighlightedOneColour(old(stars[..]), rating);
    }

    /** `restoreStars()`, the pointer leaving a star: redraw from `currentRating`. */
    method RestoreStars()
      requires Valid()
      modifies stars
      ensures Valid() && stars[..] == Restored(old(stars[..]), currentRating)
    {
      for index := 0 to stars.Length
        invariant forall j :: 0 <= j < index ==> stars[j] == RestoredStar(old(stars[j]), j + 1, currentRating)
        invariant forall j :: index <= j < stars.Length ==> stars[j] == old(stars[j])
      {
        var starNum := index + 1;
        stars[index] := stars[index] - {Scale110};
        if AtMost(starNum, currentRating) {
          stars[index] := stars[index] - {TextSlate300} + {TextYellow400};
        } else {
          stars[index] := stars[index] - {TextYellow400} + {TextSlate300};
        }
      }
      RestoredOneColour(old(stars[..]), currentRating);
    }

    /** `updateCompletionStatus(lessonId, rating)`: write the completion flag iff `rating === 3`. */
    method UpdateCompletionStatus(lessonId: string, rating: Number)
      modifies this`storage
      ensures storage == CompletionWrite(old(storage), lessonId, rating)
    {
      if rating == Int(3) {
        SetItem(CompletedKey(lessonId), "true");
      }
    }
  }

  /** Hovering over star `k` and leaving it, with no click between, gives back the committed display. */
  method HoverAndLeave(page: StarRating, k: int)
    requires page.Valid() && page.stars[..] == Committed(page.currentRating, page.stars.Length)
    modifies page.stars
    ensures page.Valid() && page.stars[..] == old(page.stars[..])
  {
    page.HighlightStars(k);
    page.RestoreStars();
    HoverThenLeave(page.currentRating, page.stars.Length, k);
  }

  /** Clicking star 3 and then star 1 leaves the lesson completed, with rating 1. */
  method ClickThreeThenOne(page: StarRating, lessonId: string)
    requires page.Valid()
    modifies page, page.stars
    ensures page.currentRating == Int(1) && Completed(page.storage, lessonId)
    ensures RatingKey(lessonId) in page.storage && page.storage[RatingKey(lessonId)] == "1"
  {
    page.HandleStarClick(3, lessonId);
    ClickWriteEffect(old(page.storage), lessonId, 3);
    ghost var completed := page.storage;
    page.HandleStarClick(1, lessonId);
    ClickWriteEffect(completed, lessonId, 1);
  }

  /**
   * A lesson page loaded from `storage`, clicked on star `k`, and loaded again from the storage the
   * click left, shows the same stars as after the click.
   */
  method ReloadAfterClick(path: string, storage: Storage, k: int) returns (first: StarRating, second: StarRating)
    requires GetLessonId(path).Some? && 1 <= k <= 3
    ensures first.stars[..] == second.stars[..] == Committed(Int(k), 3)
  {
    var lessonId := GetLessonId(path).value;
    first := new StarRating(path, true, storage);
    first.InitStarRating();
    first.HandleStarClick(k, lessonId);
    UpdatedFromCommitted(LoadedRating(storage, lessonId), k, 3);
    second := new StarRating(path, true, first.storage);
    second.InitStarRating();
    ReloadRoundTrip(CompletionWrite(storage, lessonId, LoadedRating(storage, lessonId)), lessonId, k);
  }

  /**
   * A lesson page loaded from `storage`, with the pointer over star `hovered` and a click on star
   * `k`, and then loaded again from the storage the click left. The clicked page shows the stars of
   * the reloaded page, except that the stars up to the hovered one are still scaled.
   */
  method ReloadAfterHoveredClick(path: string, storage: Storage, hovered: int, k: int)
    returns (first: StarRating, second: StarRating)
    requires GetLessonId(path).Some? && 1 <= k <= 3
    ensures first.stars.Length == 3 && second.stars[..] == Committed(Int(k), 3)
    ensures forall i :: 0 <= i < 3 ==> first.stars[i] - {Scale110} == second.stars[i]
    ensures forall i :: 0 <= i < 3 ==> (Scale110 in first.stars[i] <==> i + 1 <= hovered)
  {
    var lessonId := GetLessonId(path).value;
    first := new StarRating(path, true, storage);
    first.InitStarRating();
    first.HighlightStars(hovered);
    first.HandleStarClick(k, lessonId);
    ClickWhileHovered(LoadedRating(storage, lessonId), hovered, k, 3);
    second := new StarRating(path, true, first.storage);
    second.InitStarRating();
    ReloadRoundTrip(CompletionWrite(storage, lessonId, LoadedRating(storage, lessonId)), lessonId, k);
  }
}
