/**
 * `BookJsonLoader`: turns the decoded seed records of the book-store test
 * database into `Book` entities. It decodes publication dates, synthesises
 * individual reviews that match each book's average rating, links books to
 * their authors in listing order, and shares one `Author` per author name.
 */
module BookJsonLoader {
  import opened Wrappers
  import opened Exceptions
  import opened Text

  // ---------------------------------------------------------------------
  // Publication dates
  // ---------------------------------------------------------------------

  /** A `DateTime` at midnight, as (year, month, day). */
  datatype Date = Date(year: int, month: int, day: int)

  const DateDecodeFailed := "The JSON publishedDate failed to decode: string was "

  /** A Gregorian leap year. */
  predicate IsLeapYear(year: int) {
    year % 4 == 0 && (year % 100 != 0 || year % 400 == 0)
  }

  /** `DateTime.DaysInMonth(year, month)`. */
  function DaysInMonth(year: int, month: int): int
    requires 1 <= month <= 12
  {
    if month == 2 then (if IsLeapYear(year) then 29 else 28)
    else if month == 4 || month == 6 || month == 9 || month == 11 then 30
    else 31
  }

  /** The dates `new DateTime(year, month, day)` accepts: years 1 to 9999 and real calendar days. */
  predicate IsValidDate(year: int, month: int, day: int) {
    1 <= year <= 9999 && 1 <= month <= 12 && 1 <= day <= DaysInMonth(year, month)
  }

  /** `new DateTime(year, month, day)`, which throws for a date outside the calendar. */
  function NewDate(year: int, month: int, day: int): (r: Result<Date, Exception>)
    ensures r.Success? <==> IsValidDate(year, month, day)
    ensures r.Success? ==> r.value == Date(year, month, day)
    ensures r.Failure? ==> r.error == ArgumentOutOfRange(year, month, day)
  {
    if IsValidDate(year, month, day) then Success(Date(year, month, day))
    else Failure(ArgumentOutOfRange(year, month, day))
  }

  /**
   * `DecodePublishDate`: "Y", "Y-M" or "Y-M-D", the missing parts filled
   * with 1; more dash-separated parts are an InvalidOperationException,
   * a part that is not a number is the exception `int.Parse` throws, and a
   * date outside the calendar the one the `DateTime` constructor throws.
   */
  function DecodePublishDate(publishedDate: string): (r: Result<Date, Exception>)
    ensures r.Failure? && r.error.InvalidOperation? <==> Count(publishedDate, '-') >= 3
    ensures r.Failure? && r.error.InvalidOperation? ==> r.error.message == DateDecodeFailed + publishedDate
    ensures r.Success? ==> IsValidDate(r.value.year, r.value.month, r.value.day)
  {
    DecodeParts(Split(publishedDate, '-'), publishedDate)
  }

  /** The case analysis of `DecodePublishDate` on the dash-separated parts. */
  function DecodeParts(split: seq<string>, publishedDate: string): (r: Result<Date, Exception>)
    ensures r.Failure? && r.error.InvalidOperation? <==> |split| !in {1, 2, 3}
    ensures r.Failure? && r.error.InvalidOperation? ==> r.error.message == DateDecodeFailed + publishedDate
    ensures r.Success? ==> IsValidDate(r.value.year, r.value.month, r.value.day)
  {
    if |split| == 1 then
      var year :- ParseInt(split[0]);
      NewDate(year, 1, 1)
    else if |split| == 2 then
      var year :- ParseInt(split[0]);
      var month :- ParseInt(split[1]);
      NewDate(year, month, 1)
    else if |split| == 3 then
      var year :- ParseInt(split[0]);
      var month :- ParseInt(split[1]);
      var day :- ParseInt(split[2]);
      NewDate(year, month, day)
    else
      Failure(InvalidOperation(DateDecodeFailed + publishedDate))
  }

  /**
   * One to three numeric parts decode to the date of their values, the
   * missing month and day being 1, or throw as `new DateTime` does.
   */
  lemma DecodePartsOfNumbers(split: seq<string>, publishedDate: string)
    requires 1 <= |split| <= 3
    requires forall i :: 0 <= i < |split| ==> ParseInt(split[i]).Success?
    ensures DecodeParts(split, publishedDate) == NewDate(
      ParseInt(split[0]).value,
      if |split| >= 2 then ParseInt(split[1]).value else 1,
      if |split| == 3 then ParseInt(split[2]).value else 1)
  {
    assert ParseInt(split[0]).Success?;
    if |split| >= 2 {
      assert ParseInt(split[1]).Success?;
    }
    if |split| == 3 {
      assert ParseInt(split[2]).Success?;
    }
  }

  /** With one to three parts, the first part that is not a number decides the exception. */
  lemma DecodePartsFirstBadPart(split: seq<string>, publishedDate: string, j: nat)
    requires 1 <= |split| <= 3 && j < |split|
    requires ParseInt(split[j]).Failure?
    requires forall i :: 0 <= i < j ==> ParseInt(split[i]).Success?
    ensures DecodeParts(split, publishedDate) == Failure(ParseInt(split[j]).error)
  {
    if j == 1 {
      assert ParseInt(split[0]).Success?;
    } else if j == 2 {
      assert ParseInt(split[0]).Success? && ParseInt(split[1]).Success?;
    }
  }

  /**
   * Joining one to three numeric parts with dashes and decoding the result
   * gives the date of those numbers, or the `DateTime` exception for them.
   */
  lemma DecodeJoined(parts: seq<string>)
    requires 1 <= |parts| <= 3
    requires forall i :: 0 <= i < |parts| ==> '-' !in parts[i] && ParseInt(parts[i]).Success?
    ensures DecodePublishDate(Join(parts, '-')) == NewDate(
      ParseInt(parts[0]).value,
      if |parts| >= 2 then ParseInt(parts[1]).value else 1,
      if |parts| == 3 then ParseInt(parts[2]).value else 1)
  {
    SplitJoin(parts, '-');
    DecodePartsOfNumbers(parts, Join(parts, '-'));
  }

  /** "Y" decodes to 1 January of year Y. */
  lemma DecodeYear(y: nat)
    requires 1 <= y <= 9999
    ensures DecodePublishDate(ShowNat(y)) == Success(Date(y, 1, 1))
  {
    ParseShowNat(y);
    DecodeJoined([ShowNat(y)]);
  }

  /** "Y-M" decodes to the first of month M of year Y, or throws when there is no such month. */
  lemma DecodeYearMonth(y: nat, m: nat)
    requires y <= Int32Max && m <= Int32Max
    ensures DecodePublishDate(ShowNat(y) + "-" + ShowNat(m)) == NewDate(y, m, 1)
  {
    ParseShowNat(y);
    ParseShowNat(m);
    var parts := [ShowNat(y), ShowNat(m)];
    assert Join(parts, '-') == ShowNat(y) + "-" + ShowNat(m) by {
      assert parts[1..] == [ShowNat(m)];
    }
    DecodeJoined(parts);
  }

  /** "Y-M-D" decodes to that date, or throws when the calendar has no such day. */
  lemma DecodeYearMonthDay(y: nat, m: nat, d: nat)
    requires y <= Int32Max && m <= Int32Max && d <= Int32Max
    ensures DecodePublishDate(ShowNat(y) + "-" + ShowNat(m) + "-" + ShowNat(d)) == NewDate(y, m, d)
  {
    ParseShowNat(y);
    ParseShowNat(m);
    ParseShowNat(d);
    var parts := [ShowNat(y), ShowNat(m), ShowNat(d)];
    assert Join(parts, '-') == ShowNat(y) + "-" + ShowNat(m) + "-" + ShowNat(d) by {
      assert parts[1..] == [ShowNat(m), ShowNat(d)];
      assert parts[1..][1..] == [ShowNat(d)];
      assert Join(parts[1..], '-') == ShowNat(m) + "-" + ShowNat(d);
    }
    DecodeJoined(parts);
  }

  /** Zero-padded parts ("2014-06-02") decode like unpadded ones: leading zeros do not change a part's value. */
  lemma DecodePaddedYearMonthDay(y: nat, m: nat, d: nat, zy: nat, zm: nat, zd: nat)
    requires y <= Int32Max && m <= Int32Max && d <= Int32Max
    ensures DecodePublishDate(Padded(y, zy) + "-" + Padded(m, zm) + "-" + Padded(d, zd)) == NewDate(y, m, d)
  {
    var a, b, c := Padded(y, zy), Padded(m, zm), Padded(d, zd);
    ParseZeroPadded(y, zy);
    ParseZeroPadded(m, zm);
    ParseZeroPadded(d, zd);
    JoinThree(a, b, c, '-');
    var parts := [a, b, c];
    forall i | 0 <= i < |parts| ensures '-' !in parts[i] && ParseInt(parts[i]).Success? {
      if i == 0 {
        assert parts[i] == a;
      } else if i == 1 {
        assert parts[i] == b;
      } else {
        assert parts[i] == c;
      }
    }
    DecodeJoined(parts);
  }

  /** A date as the seed file writes it. */
  lemma DecodeSeedFileDate()
    ensures DecodePublishDate("2014-06-02") == Success(Date(2014, 6, 2))
  {
    assert ShowNat(20) == "20";
    assert ShowNat(201) == "201";
    assert Padded(2014, 0) == "2014";
    assert Padded(6, 1) == "06" && Padded(2, 1) == "02";
    assert Padded(2014, 0) + "-" + Padded(6, 1) + "-" + Padded(2, 1) == "2014-06-02";
    DecodePaddedYearMonthDay(2014, 6, 2, 0, 1, 1);
  }

  /** "Y-2-29" decodes exactly when Y is a leap year. */
  lemma LeapDay(y: nat)
    requires 1 <= y <= 9999
    ensures DecodePublishDate(ShowNat(y) + "-" + ShowNat(2) + "-" + ShowNat(29)).Success? <==> IsLeapYear(y)
  {
    DecodeYearMonthDay(y, 2, 29);
  }

  // ---------------------------------------------------------------------
  // Reviews that match an average rating
  // ---------------------------------------------------------------------

  datatype Review = Review(voterName: string, numStars: int)

  const Anonymous := "anonymous"

  /** `Math.Truncate`: rounds toward zero. */
  function Truncate(x: real): (t: int)
    ensures 0.0 <= x ==> t as real <= x < t as real + 1.0
    ensures x < 0.0 ==> t as real - 1.0 < x <= t as real
  {
    if x >= 0.0 then x.Floor else -((-x).Floor)
  }

  /** `Math.Ceiling`: the least integer not below `x`. */
  function Ceiling(x: real): (c: int)
    ensures x <= c as real < x + 1.0
  {
    -((-x).Floor)
  }

  function SumStars(reviews: seq<Review>): int {
    if reviews == [] then 0 else SumStars(reviews[..|reviews| - 1]) + reviews[|reviews| - 1].numStars
  }

  /** `reviews.Average(x => x.NumStars)`, as an exact mean. */
  function AverageStars(reviews: seq<Review>): real
    requires |reviews| > 0
  {
    SumStars(reviews) as real / |reviews| as real
  }

  /**
   * The review appended after `prior`: the running mean starts at the
   * target itself, and the target is rounded down while the running mean is
   * above it, up otherwise.
   */
  function NextReview(averageRating: real, prior: seq<Review>): Review {
    var currentAve := if prior == [] then averageRating else AverageStars(prior);
    Review(Anonymous, if currentAve > averageRating then Truncate(averageRating) else Ceiling(averageRating))
  }

  /** The first `n` reviews generated for `averageRating`. */
  function MatchingReviews(averageRating: real, n: nat): (reviews: seq<Review>)
    ensures |reviews| == n
  {
    if n == 0 then []
    else
      var prior := MatchingReviews(averageRating, n - 1);
      prior + [NextReview(averageRating, prior)]
  }

  /**
   * `CalculateReviewsToMatch`: `ratingsCount` reviews (none for a count
   * that is not positive), each the next one `MatchingReviews` generates.
   */
  method CalculateReviewsToMatch(averageRating: real, ratingsCount: int) returns (reviews: seq<Review>)
    ensures |reviews| == if ratingsCount <= 0 then 0 else ratingsCount
    ensures reviews == MatchingReviews(averageRating, |reviews|)
  {
    reviews := [];
    var currentAve := averageRating;
    var i: nat := 0;
    while i < ratingsCount
      invariant ratingsCount <= 0 ==> i == 0
      invariant ratingsCount > 0 ==> i <= ratingsCount
      invariant reviews == MatchingReviews(averageRating, i)
      invariant currentAve == if i == 0 then averageRating else AverageStars(reviews)
    {
      var stars := if currentAve > averageRating then Truncate(averageRating) else Ceiling(averageRating);
      reviews := reviews + [Review(Anonymous, stars)];
      currentAve := AverageStars(reviews);
      i := i + 1;
    }
  }

  /** Generating more reviews only extends the ones generated before. */
  lemma {:induction false} MatchingReviewsPrefix(averageRating: real, n: nat, k: nat)
    requires k <= n
    ensures MatchingReviews(averageRating, n)[..k] == MatchingReviews(averageRating, k)
  {
    if k < n {
      MatchingReviewsPrefix(averageRating, n - 1, k);
      assert MatchingReviews(averageRating, n)[..n - 1] == MatchingReviews(averageRating, n - 1);
      assert MatchingReviews(averageRating, n)[..k] == MatchingReviews(averageRating, n)[..n - 1][..k];
    }
  }

  /** Every review is anonymous and rates the target truncated or rounded up. */
  lemma {:induction false} ReviewsTruncOrCeil(averageRating: real, n: nat, i: nat)
    requires i < n
    ensures MatchingReviews(averageRating, n)[i].voterName == Anonymous
    ensures MatchingReviews(averageRating, n)[i].numStars in {Truncate(averageRating), Ceiling(averageRating)}
  {
    if i < n - 1 {
      ReviewsTruncOrCeil(averageRating, n - 1, i);
    }
  }

  /** An integral target is matched by reviews that all give exactly it. */
  lemma IntegralAverageIsExact(k: int, n: nat, i: nat)
    requires i < n
    ensures MatchingReviews(k as real, n)[i] == Review(Anonymous, k)
  {
    ReviewsTruncOrCeil(k as real, n, i);
  }

  /**
   * Review 0 rounds the target up; review k (k >= 1) rounds it down exactly
   * when the mean of the first k reviews is above the target.
   */
  lemma ReviewRule(averageRating: real, n: nat, k: nat)
    requires k < n
    ensures var reviews := MatchingReviews(averageRating, n);
      reviews[k].numStars ==
        if k > 0 && AverageStars(reviews[..k]) > averageRating then Truncate(averageRating) else Ceiling(averageRating)
  {
    MatchingReviewsPrefix(averageRating, n, k + 1);
    MatchingReviewsPrefix(averageRating, n, k);
    var reviews := MatchingReviews(averageRating, n);
    assert reviews[k] == reviews[..k + 1][k];
  }

  /** For a positive count, the mean is above the target exactly when the sum is. */
  lemma AboveAverage(sum: real, count: real, target: real)
    requires count > 0.0
    ensures sum / count > target <==> sum > count * target
  {
    var q := sum / count;
    assert q * count == sum;
    if q > target {
      assert q * count > target * count;
    } else {
      assert q * count <= target * count;
    }
  }

  /** `count * target`, built up one review at a time. */
  function Scaled(target: real, count: nat): real {
    if count == 0 then 0.0 else Scaled(target, count - 1) + target
  }

  lemma {:induction false} ScaledIsProduct(target: real, count: nat)
    ensures Scaled(target, count) == count as real * target
  {
    if count > 0 {
      ScaledIsProduct(target, count - 1);
      assert count as real * target == (count - 1) as real * target + target;
    }
  }

  /**
   * Review k rounds down exactly when the sum of the first k stars is above
   * k times the target (for k = 0 both sides are false).
   */
  lemma NextReviewBySum(averageRating: real, prior: seq<Review>)
    ensures NextReview(averageRating, prior).numStars ==
      if SumStars(prior) as real > Scaled(averageRating, |prior|) then Truncate(averageRating) else Ceiling(averageRating)
  {
    if prior != [] {
      var count := |prior|;
      ScaledIsProduct(averageRating, count);
      NextReviewByProduct(averageRating, prior, count);
    }
  }

  lemma NextReviewByProduct(averageRating: real, prior: seq<Review>, count: nat)
    requires count == |prior| > 0
    ensures NextReview(averageRating, prior).numStars ==
      if SumStars(prior) as real > count as real * averageRating then Truncate(averageRating) else Ceiling(averageRating)
  {
    AboveAverage(SumStars(prior) as real, count as real, averageRating);
  }

  /** One generation step keeps the deviation of the sum from the target within one star. */
  lemma DeviationStep(deviation: real, averageRating: real, stars: int)
    requires averageRating >= 0.0 && -1.0 < deviation < 1.0
    requires stars == if deviation > 0.0 then Truncate(averageRating) else Ceiling(averageRating)
    ensures -1.0 < deviation + (stars as real - averageRating) < 1.0
  {
  }

  /** The sum of n >= 1 generated stars adds the n-th star to the sum of the first n - 1. */
  lemma SumOfNext(averageRating: real, n: nat)
    requires n > 0
    ensures SumStars(MatchingReviews(averageRating, n))
         == SumStars(MatchingReviews(averageRating, n - 1)) + NextReview(averageRating, MatchingReviews(averageRating, n - 1)).numStars
  {
    var reviews := MatchingReviews(averageRating, n);
    assert reviews[..n - 1] == MatchingReviews(averageRating, n - 1);
  }

  /**
   * For a non-negative target, the sum of the first n stars stays within
   * one star of n times the target: the generator self-corrects.
   */
  lemma {:induction false} RunningSumNearScaled(averageRating: real, n: nat)
    requires averageRating >= 0.0
    ensures -1.0 < SumStars(MatchingReviews(averageRating, n)) as real - Scaled(averageRating, n) < 1.0
  {
    if n > 0 {
      RunningSumNearScaled(averageRating, n - 1);
      var prior := MatchingReviews(averageRating, n - 1);
      var stars := NextReview(averageRating, prior).numStars;
      SumOfNext(averageRating, n);
      NextReviewBySum(averageRating, prior);
      DeviationStep(SumStars(prior) as real - Scaled(averageRating, n - 1), averageRating, stars);
    }
  }

  /** The same bound, with the product written out. */
  lemma RunningSumNearTarget(averageRating: real, n: nat)
    requires averageRating >= 0.0
    ensures -1.0 < SumStars(MatchingReviews(averageRating, n)) as real - n as real * averageRating < 1.0
  {
    RunningSumNearScaled(averageRating, n);
    ScaledIsProduct(averageRating, n);
  }

  /** A sum within one of count * target has a mean within 1/count of the target. */
  lemma MeanNearTarget(sum: real, count: real, target: real)
    requires count > 0.0 && -1.0 < sum - count * target < 1.0
    ensures target - 1.0 / count < sum / count < target + 1.0 / count
  {
    var mean := sum / count;
    var unit := 1.0 / count;
    assert mean * count == sum;
    assert unit * count == 1.0;
    assert (mean - target + unit) * count == sum - count * target + 1.0;
    assert (target + unit - mean) * count == 1.0 - (sum - count * target);
  }

  /** The same for the mean of reviews whose sum is within one of the scaled target. */
  lemma MeanOfReviewsNearTarget(reviews: seq<Review>, target: real, n: nat)
    requires n == |reviews| > 0
    requires -1.0 < SumStars(reviews) as real - Scaled(target, n) < 1.0
    ensures target - 1.0 / n as real < AverageStars(reviews) < target + 1.0 / n as real
  {
    ScaledIsProduct(target, n);
    MeanNearTarget(SumStars(reviews) as real, n as real, target);
  }

  /** Hence the mean of n >= 1 reviews is within 1/n of a non-negative target. */
  lemma AverageNearTarget(averageRating: real, n: nat)
    requires averageRating >= 0.0 && n >= 1
    ensures var mean := AverageStars(MatchingReviews(averageRating, n));
      averageRating - 1.0 / n as real < mean < averageRating + 1.0 / n as real
  {
    RunningSumNearScaled(averageRating, n);
    MeanOfReviewsNearTarget(MatchingReviews(averageRating, n), averageRating, n);
  }

  // ---------------------------------------------------------------------
  // Books, authors and the author dictionary
  // ---------------------------------------------------------------------

  /** An unsigned 8-bit integer (`byte`). */
  newtype byte = x: int | 0 <= x < 256

  /** One decoded record of the seed file. */
  datatype BookInfo = BookInfo(
    title: string,
    description: string,
    publishedDate: string,
    publisher: string,
    saleInfoListPriceAmount: Option<real>,
    imageLinksThumbnail: string,
    authors: seq<string>,
    averageRating: Option<real>,
    ratingsCount: Option<int>)

  /** An author entity; its identity is what books that share an author share. */
  class Author {
    const name: string

    constructor (name: string)
      ensures this.name == name
    {
      this.name := name;
    }
  }

  /** The many-to-many link from a book to one of its authors, with the author's position. */
  datatype BookAuthor = BookAuthor(author: Author, order: byte)

  /** A book entity; `reviews` is None when the record has no average rating. */
  datatype Book = Book(
    title: string,
    description: string,
    publishedOn: Date,
    publisher: string,
    price: real,
    imageUrl: string,
    authorsLink: seq<BookAuthor>,
    reviews: Option<seq<Review>>)

  /** `ratingsCount ?? 0`, as the number of reviews it yields. */
  function ReviewCount(info: BookInfo): nat {
    var count := info.ratingsCount.GetOr(0);
    if count <= 0 then 0 else count
  }

  /** `book` is what `CreateBookWithRefs` makes of `info` with `authorDict`. */
  ghost predicate BuiltFrom(book: Book, info: BookInfo, authorDict: map<string, Author>) {
    && DecodePublishDate(info.publishedDate).Success?
    && book.title == info.title
    && book.description == info.description
    && book.publishedOn == DecodePublishDate(info.publishedDate).value
    && book.publisher == info.publisher
    && book.price == info.saleInfoListPriceAmount.GetOr(-1.0)
    && book.imageUrl == info.imageLinksThumbnail
    && |book.authorsLink| == |info.authors|
    && (forall i :: 0 <= i < |info.authors| ==>
          info.authors[i] in authorDict
          && book.authorsLink[i] == BookAuthor(authorDict[info.authors[i]], (i % 256) as byte))
    && book.reviews == if info.averageRating.Some? then Some(MatchingReviews(info.averageRating.value, ReviewCount(info)))
                       else None
  }

  /**
   * The author links of one record: each name looked up in the dictionary
   * in order and numbered by a byte counter that wraps after 255; fails
   * with KeyNotFound for the first name the dictionary lacks.
   */
  method LinkAuthors(authors: seq<string>, authorDict: map<string, Author>) returns (r: Result<seq<BookAuthor>, Exception>)
    ensures r.Success? <==> forall a :: a in authors ==> a in authorDict
    ensures r.Success? ==>
      && |r.value| == |authors|
      && forall j :: 0 <= j < |authors| ==>
           authors[j] in authorDict && r.value[j] == BookAuthor(authorDict[authors[j]], (j % 256) as byte)
    ensures r.Failure? ==>
      exists j :: 0 <= j < |authors| && authors[j] !in authorDict && r.error == KeyNotFound(authors[j])
                  && forall i :: 0 <= i < j ==> authors[i] in authorDict
  {
    var authorsLink := [];
    var i: byte := 0;
    var k := 0;
    while k < |authors|
      invariant k <= |authors|
      invariant i as int == k % 256
      invariant |authorsLink| == k
      invariant forall j :: 0 <= j < k ==>
        authors[j] in authorDict && authorsLink[j] == BookAuthor(authorDict[authors[j]], (j % 256) as byte)
    {
      var name := authors[k];
      if name !in authorDict {
        return Failure(KeyNotFound(name));
      }
      authorsLink := authorsLink + [BookAuthor(authorDict[name], i)];
      i := if i == 255 then 0 else i + 1;
      k := k + 1;
    }
    return Success(authorsLink);
  }

  /**
   * `CreateBookWithRefs`: the book of one record, its authors linked by
   * `LinkAuthors`; fails as the date decoder does, or with KeyNotFound for
   * the first author missing from the dictionary.
   */
  method CreateBookWithRefs(info: BookInfo, authorDict: map<string, Author>) returns (r: Result<Book, Exception>)
    ensures DecodePublishDate(info.publishedDate).Failure? ==> r == Failure(DecodePublishDate(info.publishedDate).error)
    ensures r.Success? <==> DecodePublishDate(info.publishedDate).Success? && forall a :: a in info.authors ==> a in authorDict
    ensures r.Success? ==> BuiltFrom(r.value, info, authorDict)
    ensures r.Failure? && DecodePublishDate(info.publishedDate).Success? ==>
      exists j :: 0 <= j < |info.authors| && info.authors[j] !in authorDict && r.error == KeyNotFound(info.authors[j])
                  && forall i :: 0 <= i < j ==> info.authors[i] in authorDict
  {
    var publishedOn :- DecodePublishDate(info.publishedDate);
    var authorsLink :- LinkAuthors(info.authors, authorDict);
    var reviews := None;
    if info.averageRating.Some? {
      var generated := CalculateReviewsToMatch(info.averageRating.value, info.ratingsCount.GetOr(0));
      reviews := Some(generated);
    }
    var price := info.saleInfoListPriceAmount.GetOr(-1.0);
    return Success(Book(info.title, info.description, publishedOn, info.publisher, price,
                        info.imageLinksThumbnail, authorsLink, reviews));
  }

  /** Every author name listed by any of the records. */
  function AuthorNames(infos: seq<BookInfo>): set<string> {
    if infos == [] then {}
    else AuthorNames(infos[..|infos| - 1]) + Elements(infos[|infos| - 1].authors)
  }

  function Elements(names: seq<string>): set<string> {
    set a | a in names
  }

  lemma {:induction false} AuthorNamesListed(infos: seq<BookInfo>, p: nat, a: string)
    requires p < |infos|
    ensures a in infos[p].authors ==> a in AuthorNames(infos)
  {
    if p < |infos| - 1 {
      AuthorNamesListed(infos[..|infos| - 1], p, a);
    }
  }

  /** The error of the first record whose date does not decode, if any. */
  function LoadError(infos: seq<BookInfo>): Option<Exception> {
    if infos == [] then None
    else
      var earlier := LoadError(infos[..|infos| - 1]);
      var decoded := DecodePublishDate(infos[|infos| - 1].publishedDate);
      if earlier.Some? then earlier
      else if decoded.Failure? then Some(decoded.error)
      else None
  }

  /** The publication date of a record decodes. */
  predicate DateDecodes(info: BookInfo) {
    DecodePublishDate(info.publishedDate).Success?
  }

  /** A list without a load error has none in its front part, and its last record's date decodes. */
  lemma LoadErrorLast(infos: seq<BookInfo>)
    requires infos != [] && LoadError(infos).None?
    ensures LoadError(infos[..|infos| - 1]).None?
    ensures DateDecodes(infos[|infos| - 1])
  {
  }

  /** Without a load error, every record's date decodes. */
  lemma NoLoadErrorAllDecode(infos: seq<BookInfo>)
    requires LoadError(infos).None?
    ensures forall info :: info in infos ==> DateDecodes(info)
  {
    forall info | info in infos
      ensures DateDecodes(info)
    {
      var p :| 0 <= p < |infos| && infos[p] == info;
      var upTo := infos[..p + 1];
      if LoadError(upTo).Some? {
        LoadErrorSticks(infos, p + 1);
      }
      LoadErrorLast(upTo);
      assert upTo[p] == info;
    }
  }

  /** When every record's date decodes, there is no load error. */
  lemma {:induction false} AllDecodeNoLoadError(infos: seq<BookInfo>)
    requires forall info :: info in infos ==> DateDecodes(info)
    ensures LoadError(infos).None?
  {
    if infos != [] {
      var prior := infos[..|infos| - 1];
      assert infos == prior + [infos[|infos| - 1]];
      assert DateDecodes(infos[|infos| - 1]);
      AllDecodeNoLoadError(prior);
    }
  }

  /** There is a load error exactly when some record's date fails to decode. */
  lemma LoadErrorIffBadDate(infos: seq<BookInfo>)
    ensures LoadError(infos).None? <==> forall info :: info in infos ==> DateDecodes(info)
  {
    if LoadError(infos).None? {
      NoLoadErrorAllDecode(infos);
    } else if forall info :: info in infos ==> DateDecodes(info) {
      AllDecodeNoLoadError(infos);
    }
  }

  /** A load error is the error of the first record whose date fails to decode. */
  lemma {:induction false} LoadErrorIsFirstBadDate(infos: seq<BookInfo>)
    requires LoadError(infos).Some?
    ensures exists p ::
      && 0 <= p < |infos|
      && DecodePublishDate(infos[p].publishedDate) == Failure(LoadError(infos).value)
      && forall q :: 0 <= q < p ==> DecodePublishDate(infos[q].publishedDate).Success?
  {
    var prior := infos[..|infos| - 1];
    if LoadError(prior).Some? {
      LoadErrorIsFirstBadDate(prior);
      var p :| 0 <= p < |prior|
        && DecodePublishDate(prior[p].publishedDate) == Failure(LoadError(prior).value)
        && forall q :: 0 <= q < p ==> DecodePublishDate(prior[q].publishedDate).Success?;
      assert forall q :: 0 <= q <= p ==> prior[q] == infos[q];
    } else {
      NoLoadErrorAllDecode(prior);
      forall q | 0 <= q < |prior| ensures DateDecodes(infos[q]) {
        assert prior[q] in prior && prior[q] == infos[q];
      }
      assert DecodePublishDate(infos[|infos| - 1].publishedDate) == Failure(LoadError(infos).value);
    }
  }

  /** A prefix without a load error gets one from the next record exactly when that record's date fails. */
  lemma LoadErrorExtend(infos: seq<BookInfo>, p: nat)
    requires p < |infos| && LoadError(infos[..p]).None?
    ensures var decoded := DecodePublishDate(infos[p].publishedDate);
      LoadError(infos[..p + 1]) == if decoded.Failure? then Some(decoded.error) else None
  {
    assert infos[..p + 1][..p] == infos[..p];
  }

  /** Once a prefix has a load error, longer prefixes keep that same error. */
  lemma {:induction false} LoadErrorSticks(infos: seq<BookInfo>, k: nat)
    requires k <= |infos| && LoadError(infos[..k]).Some?
    ensures LoadError(infos) == LoadError(infos[..k])
  {
    if k < |infos| {
      assert infos[..|infos| - 1][..k] == infos[..k];
      LoadErrorSticks(infos[..|infos| - 1], k);
    } else {
      assert infos[..k] == infos;
    }
  }

  /** `books` are the books `LoadBooks` makes of `infos`, their authors drawn from `authorDict`. */
  ghost predicate LoadedWith(books: seq<Book>, infos: seq<BookInfo>, authorDict: map<string, Author>) {
    && authorDict.Keys == AuthorNames(infos)
    && (forall a :: a in authorDict ==> authorDict[a].name == a)
    && |books| == |infos|
    && forall p :: 0 <= p < |infos| ==> BuiltFrom(books[p], infos[p], authorDict)
  }

  /**
   * The author loop of `LoadBooks`: one fresh `Author` per distinct name,
   * named by its key; an entry, once made, is never replaced.
   */
  method CollectAuthors(infos: seq<BookInfo>) returns (authorDict: map<string, Author>)
    ensures authorDict.Keys == AuthorNames(infos)
    ensures forall a :: a in authorDict ==> authorDict[a].name == a && fresh(authorDict[a])
    ensures forall a, b :: a in authorDict && b in authorDict && a != b ==> authorDict[a] != authorDict[b]
  {
    authorDict := map[];
    var p := 0;
    while p < |infos|
      invariant p <= |infos|
      invariant authorDict.Keys == AuthorNames(infos[..p])
      invariant forall a :: a in authorDict ==> authorDict[a].name == a && fresh(authorDict[a])
      invariant forall a, b :: a in authorDict && b in authorDict && a != b ==> authorDict[a] != authorDict[b]
    {
      var authors := infos[p].authors;
      var k := 0;
      ghost var before := authorDict;
      while k < |authors|
        invariant k <= |authors|
        invariant authorDict.Keys == AuthorNames(infos[..p]) + Elements(authors[..k])
        invariant forall a :: a in before ==> a in authorDict && authorDict[a] == before[a]
        invariant forall a :: a in authorDict ==> authorDict[a].name == a && fresh(authorDict[a])
        invariant forall a, b :: a in authorDict && b in authorDict && a != b ==> authorDict[a] != authorDict[b]
      {
        var name := authors[k];
        if name !in authorDict {
          var author := new Author(name);
          authorDict := authorDict[name := author];
        }
        assert authors[..k + 1] == authors[..k] + [name];
        k := k + 1;
      }
      assert authors[..k] == authors;
      assert infos[..p + 1][..p] == infos[..p];
      p := p + 1;
    }
    assert infos[..p] == infos;
  }

  /** Books built from one author dictionary share an author object exactly when they list the same name. */
  lemma AuthorsShared(books: seq<Book>, infos: seq<BookInfo>, authorDict: map<string, Author>)
    requires |books| == |infos|
    requires forall a :: a in authorDict ==> authorDict[a].name == a
    requires forall p :: 0 <= p < |infos| ==> BuiltFrom(books[p], infos[p], authorDict)
    ensures forall p, i, q, j ::
      && 0 <= p < |books| && 0 <= i < |books[p].authorsLink|
      && 0 <= q < |books| && 0 <= j < |books[q].authorsLink|
      ==> (books[p].authorsLink[i].author == books[q].authorsLink[j].author
           <==> books[p].authorsLink[i].author.name == books[q].authorsLink[j].author.name)
  {
    forall p, i, q, j |
      && 0 <= p < |books| && 0 <= i < |books[p].authorsLink|
      && 0 <= q < |books| && 0 <= j < |books[q].authorsLink|
      ensures books[p].authorsLink[i].author == books[q].authorsLink[j].author
              <==> books[p].authorsLink[i].author.name == books[q].authorsLink[j].author.name
    {
      assert BuiltFrom(books[p], infos[p], authorDict) && BuiltFrom(books[q], infos[q], authorDict);
      var a, b := infos[p].authors[i], infos[q].authors[j];
      assert books[p].authorsLink[i].author == authorDict[a] && authorDict[a].name == a;
      assert books[q].authorsLink[j].author == authorDict[b] && authorDict[b].name == b;
    }
  }

  /**
   * `jsonDecoded.Select(x => CreateBookWithRefs(x, authorDict))`, enumerated
   * in order up to the first exception.
   */
  method CreateBooks(infos: seq<BookInfo>, authorDict: map<string, Author>) returns (books: Result<seq<Book>, Exception>)
    requires AuthorNames(infos) <= authorDict.Keys
    ensures books.Failure? <==> LoadError(infos).Some?
    ensures books.Failure? ==> books.error == LoadError(infos).value
    ensures books.Success? ==>
      && |books.value| == |infos|
      && forall p :: 0 <= p < |infos| ==> BuiltFrom(books.value[p], infos[p], authorDict)
  {
    var loaded := [];
    var p := 0;
    while p < |infos|
      invariant p <= |infos|
      invariant LoadError(infos[..p]).None?
      invariant |loaded| == p
      invariant forall q :: 0 <= q < p ==> BuiltFrom(loaded[q], infos[q], authorDict)
    {
      forall a | a in infos[p].authors
        ensures a in authorDict
      {
        AuthorNamesListed(infos, p, a);
      }
      var book := CreateBookWithRefs(infos[p], authorDict);
      LoadErrorExtend(infos, p);
      if book.Failure? {
        LoadErrorSticks(infos, p + 1);
        return Failure(book.error);
      }
      forall q | 0 <= q < p + 1
        ensures BuiltFrom((loaded + [book.value])[q], infos[q], authorDict)
      {
        if q < p {
          assert (loaded + [book.value])[q] == loaded[q];
        }
      }
      loaded := loaded + [book.value];
      p := p + 1;
    }
    assert infos[..p] == infos;
    books := Success(loaded);
  }

  /**
   * `LoadBooks`: the books of the decoded records, in order, their authors
   * shared through one dictionary; fails with the first undecodable date.
   */
  method LoadBooks(jsonDecoded: seq<BookInfo>) returns (books: Result<seq<Book>, Exception>, ghost authorDict: map<string, Author>)
    ensures authorDict.Keys == AuthorNames(jsonDecoded)
    ensures forall a :: a in authorDict ==> authorDict[a].name == a && fresh(authorDict[a])
    ensures books.Failure? <==> LoadError(jsonDecoded).Some?
    ensures books.Failure? ==> books.error == LoadError(jsonDecoded).value
    ensures books.Success? ==>
      && |books.value| == |jsonDecoded|
      && forall p :: 0 <= p < |jsonDecoded| ==> BuiltFrom(books.value[p], jsonDecoded[p], authorDict)
    ensures books.Success? ==>
      forall p, i, q, j ::
        && 0 <= p < |books.value| && 0 <= i < |books.value[p].authorsLink|
        && 0 <= q < |books.value| && 0 <= j < |books.value[q].authorsLink|
        ==> (books.value[p].authorsLink[i].author == books.value[q].authorsLink[j].author
             <==> books.value[p].authorsLink[i].author.name == books.value[q].authorsLink[j].author.name)
  {
    var dict := CollectAuthors(jsonDecoded);
    authorDict := dict;
    books := CreateBooks(jsonDecoded, dict);
    if books.Success? {
      AuthorsShared(books.value, jsonDecoded, dict);
    }
  }
}
