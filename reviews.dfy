/** The catalogue model of reviews/models.py: the short display form every
    entity gives itself, the score range of a review, the one-review-per-
    author-and-work constraint, and the unique slugs of categories and genres.
    The display limit (MAX_LENGHT) comes from a constants module that is not
    part of this model, so it is a parameter. */
module Reviews {
  import opened Common

  function Min(a: nat, b: nat): nat
  {
    if a <= b then a else b
  }

  /** The `__str__` rule shared by every catalogue entity: the first
      `maxLength` characters, followed by "..." when something was cut. The
      result is never longer than the limit plus the ellipsis, and it starts
      with the text itself, cut at the limit. */
  function Shorten(text: string, maxLength: nat): (r: string)
    ensures Min(|text|, maxLength) <= |r| <= maxLength + 3
    ensures r[..Min(|text|, maxLength)] == text[..Min(|text|, maxLength)]
  {
    text[..Min(|text|, maxLength)] + (if |text| > maxLength then "..." else "")
  }

  lemma ShortenCases(text: string, maxLength: nat)
    ensures |text| <= maxLength ==> Shorten(text, maxLength) == text
    ensures |text| > maxLength ==> Shorten(text, maxLength) == text[..maxLength] + "..."
  {
  }

  /** A text is its own display form exactly when it fits, or when it already
      looks like a cut one: the limit plus three characters, ending in "...". */
  lemma ShortenFixedPoints(text: string, maxLength: nat)
    ensures Shorten(text, maxLength) == text
      <==> |text| <= maxLength || (|text| == maxLength + 3 && text[maxLength..] == "...")
  {
    if |text| > maxLength {
      var r := text[..maxLength] + "...";
      if r == text {
        assert text[maxLength..] == r[maxLength..];
      }
      if |text| == maxLength + 3 && text[maxLength..] == "..." {
        assert text == text[..maxLength] + text[maxLength..];
      }
    }
  }

  /** Shortening twice gives the same display form as shortening once. */
  lemma ShortenIdempotent(text: string, maxLength: nat)
    ensures Shorten(Shorten(text, maxLength), maxLength) == Shorten(text, maxLength)
  {
    if |text| > maxLength {
      var r := text[..maxLength] + "...";
      assert r[..maxLength] == text[..maxLength];
    }
  }

  datatype Category = Category(name: string, slug: string)
  {
    function Str(maxLength: nat): (r: string)
      ensures |r| <= maxLength + 3
      ensures |name| <= maxLength ==> r == name
      ensures |name| > maxLength ==> |r| == maxLength + 3 && r[..maxLength] == name[..maxLength] && r[maxLength..] == "..."
    {
      Shorten(name, maxLength)
    }
  }

  datatype Genre = Genre(name: string, slug: string)
  {
    function Str(maxLength: nat): (r: string)
      ensures |r| <= maxLength + 3
      ensures |name| <= maxLength ==> r == name
      ensures |name| > maxLength ==> |r| == maxLength + 3 && r[..maxLength] == name[..maxLength] && r[maxLength..] == "..."
    {
      Shorten(name, maxLength)
    }
  }

  datatype Title = Title(name: string, year: nat, description: string, category: Option<nat>)
  {
    function Str(maxLength: nat): (r: string)
      ensures |r| <= maxLength + 3
      ensures |name| <= maxLength ==> r == name
      ensures |name| > maxLength ==> |r| == maxLength + 3 && r[..maxLength] == name[..maxLength] && r[maxLength..] == "..."
    {
      Shorten(name, maxLength)
    }
  }

  /** A review of work `title` by account `author`. */
  datatype Review = Review(title: nat, author: nat, text: string, score: int)
  {
    function Str(maxLength: nat): (r: string)
      ensures |r| <= maxLength + 3
      ensures |text| <= maxLength ==> r == text
      ensures |text| > maxLength ==> |r| == maxLength + 3 && r[..maxLength] == text[..maxLength] && r[maxLength..] == "..."
    {
      Shorten(text, maxLength)
    }
  }

  /** A comment on review `review` by account `author`. */
  datatype Comment = Comment(review: nat, author: nat, text: string)
  {
    function Str(maxLength: nat): (r: string)
      ensures |r| <= maxLength + 3
      ensures |text| <= maxLength ==> r == text
      ensures |text| > maxLength ==> |r| == maxLength + 3 && r[..maxLength] == text[..maxLength] && r[maxLength..] == "..."
    {
      Shorten(text, maxLength)
    }
  }

  /** The two validators of the `score` column. */
  predicate ValidScore(score: int)
  {
    1 <= score <= 10
  }

  /** The `unique_review` constraint: no two reviews share work and author. */
  ghost predicate OneReviewPerAuthor(reviews: seq<Review>)
  {
    forall i, j :: 0 <= i < j < |reviews| ==>
      reviews[i].title != reviews[j].title || reviews[i].author != reviews[j].author
  }

  ghost predicate ReviewTableValid(reviews: seq<Review>)
  {
    OneReviewPerAuthor(reviews) && forall i :: 0 <= i < |reviews| ==> ValidScore(reviews[i].score)
  }

  /** The query `Review.objects.filter(title=title, author=author)`. */
  function FindReview(reviews: seq<Review>, title: nat, author: nat): (r: Option<nat>)
    ensures r.Some? ==> r.value < |reviews| && reviews[r.value].title == title && reviews[r.value].author == author
    ensures r.None? ==> forall i :: 0 <= i < |reviews| ==> reviews[i].title != title || reviews[i].author != author
  {
    if |reviews| == 0 then None
    else if reviews[0].title == title && reviews[0].author == author then Some(0)
    else match FindReview(reviews[1..], title, author)
      case None => None
      case Some(k) => Some(k + 1)
  }

  ghost predicate CategorySlugsUnique(categories: seq<Category>)
  {
    forall i, j :: 0 <= i < j < |categories| ==> categories[i].slug != categories[j].slug
  }

  ghost predicate GenreSlugsUnique(genres: seq<Genre>)
  {
    forall i, j :: 0 <= i < j < |genres| ==> genres[i].slug != genres[j].slug
  }

  /** An insert into the category table under its unique slug column: None
      when the store refuses it. */
  function InsertCategory(categories: seq<Category>, c: Category): (r: Option<seq<Category>>)
    ensures r.Some? ==>
      |r.value| == |categories| + 1 && r.value[..|categories|] == categories && r.value[|categories|] == c
    ensures r.Some? ==> forall i :: 0 <= i < |categories| ==> categories[i].slug != c.slug
  {
    if exists i :: 0 <= i < |categories| && categories[i].slug == c.slug then None
    else Some(categories + [c])
  }

  /** The same for the genre table. */
  function InsertGenre(genres: seq<Genre>, g: Genre): (r: Option<seq<Genre>>)
    ensures r.Some? ==>
      |r.value| == |genres| + 1 && r.value[..|genres|] == genres && r.value[|genres|] == g
    ensures r.Some? ==> forall i :: 0 <= i < |genres| ==> genres[i].slug != g.slug
  {
    if exists i :: 0 <= i < |genres| && genres[i].slug == g.slug then None
    else Some(genres + [g])
  }

  /** An insert is refused exactly when the slug is taken, and an accepted
      insert keeps the slugs unique. */
  lemma InsertCategoryKeepsSlugsUnique(categories: seq<Category>, c: Category)
    requires CategorySlugsUnique(categories)
    ensures InsertCategory(categories, c).None? <==> exists i :: 0 <= i < |categories| && categories[i].slug == c.slug
    ensures InsertCategory(categories, c).Some? ==> CategorySlugsUnique(InsertCategory(categories, c).value)
  {
    var t := categories + [c];
    if InsertCategory(categories, c).Some? {
      forall i, j | 0 <= i < j < |t| ensures t[i].slug != t[j].slug {
        assert t[i] == categories[i];
      }
    }
  }

  lemma InsertGenreKeepsSlugsUnique(genres: seq<Genre>, g: Genre)
    requires GenreSlugsUnique(genres)
    ensures InsertGenre(genres, g).None? <==> exists i :: 0 <= i < |genres| && genres[i].slug == g.slug
    ensures InsertGenre(genres, g).Some? ==> GenreSlugsUnique(InsertGenre(genres, g).value)
  {
    var t := genres + [g];
    if InsertGenre(genres, g).Some? {
      forall i, j | 0 <= i < j < |t| ensures t[i].slug != t[j].slug {
        assert t[i] == genres[i];
      }
    }
  }
}
