/** The in-memory part of the image-metadata repository: searching a user's
    images by tag and projecting them into wardrobe records. Fetching the
    user's images from the database happens before, and its result is the
    `images` argument here. */
module ImageRepository {

  import opened Common

  /** The stored upload time. Its text form is produced by `isoformat`, a
      library call passed in as a function. */
  datatype DateTime = DateTime(year: int, month: int, day: int, hour: int, minute: int,
                               second: int, microsecond: int)

  datatype BoundingBox = BoundingBox(x: int, y: int, width: int, height: int)

  /** One row of the image-metadata table. */
  datatype ImageMetadata = ImageMetadata(
    id: int,
    userId: string,
    imageUrl: string,
    clothingType: string,
    dominantColor: Rgb,
    tags: seq<string>,
    uploadedAt: DateTime,
    boundingBox: BoundingBox)

  /** The dictionary `to_dict` returns. */
  datatype ImageRecord = ImageRecord(
    id: int,
    userId: string,
    imageUrl: string,
    clothingType: string,
    dominantColor: Rgb,
    tags: seq<string>,
    uploadedAt: string,
    boundingBox: BoundingBox)

  function ToDict(image: ImageMetadata, isoformat: DateTime -> string): ImageRecord
  {
    ImageRecord(image.id, image.userId, image.imageUrl, image.clothingType, image.dominantColor,
                image.tags, isoformat(image.uploadedAt), image.boundingBox)
  }

  /** `any(tag in image_tags for tag in tags)`. */
  predicate MatchesAnyTag(imageTags: seq<string>, tags: seq<string>)
  {
    exists t :: t in tags && t in imageTags
  }

  /** `a` is `b` with some elements left out, the rest in the same order. */
  ghost predicate IsSubsequence<T>(a: seq<T>, b: seq<T>)
  {
    if a == [] then true
    else if b == [] then false
    else (a[0] == b[0] && IsSubsequence(a[1..], b[1..])) || IsSubsequence(a, b[1..])
  }

  /** `search_by_tags`: the user's images that carry at least one query tag,
      in the order of the user's image list. */
  function SearchByTags(images: seq<ImageMetadata>, tags: seq<string>): (found: seq<ImageMetadata>)
    ensures |found| <= |images|
    ensures IsSubsequence(found, images)
    ensures forall x :: x in found <==> x in images && MatchesAnyTag(x.tags, tags)
    ensures tags == [] ==> found == []
  {
    if images == [] then []
    else
      var rest := SearchByTags(images[1..], tags);
      assert forall x :: x in images <==> x == images[0] || x in images[1..];
      if MatchesAnyTag(images[0].tags, tags) then [images[0]] + rest else rest
  }

  /** A kept image appears in the result as many times as in the input. */
  lemma {:induction false} SearchKeepsMultiplicity(images: seq<ImageMetadata>, tags: seq<string>)
    ensures forall x :: multiset(SearchByTags(images, tags))[x]
                        == if MatchesAnyTag(x.tags, tags) then multiset(images)[x] else 0
  {
    if images != [] {
      SearchKeepsMultiplicity(images[1..], tags);
      assert images == [images[0]] + images[1..];
    }
  }

  /** Asking for more tags never loses a result: the answer to a smaller query
      is a subsequence of the answer to a larger one. */
  lemma {:induction false} SearchMonotone(images: seq<ImageMetadata>, tags: seq<string>, more: seq<string>)
    requires forall t :: t in tags ==> t in more
    ensures IsSubsequence(SearchByTags(images, tags), SearchByTags(images, more))
  {
    if images != [] {
      SearchMonotone(images[1..], tags, more);
      var a := SearchByTags(images, tags);
      var b := SearchByTags(images, more);
      var restA := SearchByTags(images[1..], tags);
      var restB := SearchByTags(images[1..], more);
      if MatchesAnyTag(images[0].tags, tags) {
        var t :| t in tags && t in images[0].tags;
        assert t in more;
        assert a == [images[0]] + restA && b == [images[0]] + restB;
        assert a[1..] == restA && b[1..] == restB;
      } else if MatchesAnyTag(images[0].tags, more) {
        assert a == restA && b == [images[0]] + restB;
        assert b[1..] == restB;
        if a != [] {
          SubsequenceDropFront(a, b);
        }
      } else {
        assert a == restA && b == restB;
      }
    }
  }

  lemma SubsequenceDropFront<T>(a: seq<T>, b: seq<T>)
    requires b != [] && IsSubsequence(a, b[1..])
    ensures IsSubsequence(a, b)
  {
  }

  /** `get_wardrobe`: one record per user image, in the same order, every field
      copied and the upload time rendered by `isoformat`. */
  function GetWardrobe(images: seq<ImageMetadata>, isoformat: DateTime -> string): (wardrobe: seq<ImageRecord>)
    ensures |wardrobe| == |images|
    ensures forall i :: 0 <= i < |images| ==>
              && wardrobe[i].id == images[i].id
              && wardrobe[i].userId == images[i].userId
              && wardrobe[i].imageUrl == images[i].imageUrl
              && wardrobe[i].clothingType == images[i].clothingType
              && wardrobe[i].dominantColor == images[i].dominantColor
              && wardrobe[i].tags == images[i].tags
              && wardrobe[i].uploadedAt == isoformat(images[i].uploadedAt)
              && wardrobe[i].boundingBox == images[i].boundingBox
  {
    seq(|images|, i requires 0 <= i < |images| => ToDict(images[i], isoformat))
  }

  /** The same tag filter applied to wardrobe records. */
  function FilterRecordsByTags(records: seq<ImageRecord>, tags: seq<string>): seq<ImageRecord>
  {
    if records == [] then []
    else if MatchesAnyTag(records[0].tags, tags) then [records[0]] + FilterRecordsByTags(records[1..], tags)
    else FilterRecordsByTags(records[1..], tags)
  }

  /** Projecting a list whose head is `image` gives that image's record in front
      of the projection of the rest. */
  lemma GetWardrobeCons(image: ImageMetadata, rest: seq<ImageMetadata>, isoformat: DateTime -> string)
    ensures GetWardrobe([image] + rest, isoformat) == [ToDict(image, isoformat)] + GetWardrobe(rest, isoformat)
  {
  }

  /** Because the records keep the tags verbatim, searching and then projecting
      gives the same list as projecting and then filtering the records. */
  lemma {:induction false} SearchCommutesWithWardrobe(images: seq<ImageMetadata>, tags: seq<string>,
                                                      isoformat: DateTime -> string)
    ensures GetWardrobe(SearchByTags(images, tags), isoformat)
            == FilterRecordsByTags(GetWardrobe(images, isoformat), tags)
  {
    if images != [] {
      SearchCommutesWithWardrobe(images[1..], tags, isoformat);
      assert [images[0]] + images[1..] == images;
      GetWardrobeCons(images[0], images[1..], isoformat);
      var records := GetWardrobe(images, isoformat);
      assert records[0].tags == images[0].tags;
      assert records[1..] == GetWardrobe(images[1..], isoformat);
      var rest := SearchByTags(images[1..], tags);
      if MatchesAnyTag(images[0].tags, tags) {
        assert SearchByTags(images, tags) == [images[0]] + rest;
        GetWardrobeCons(images[0], rest, isoformat);
      } else {
        assert SearchByTags(images, tags) == rest;
      }
    }
  }
}
