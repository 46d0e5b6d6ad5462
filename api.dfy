/** The validation branches of the HTTP handlers in the application entry
    point: the file-name and content-type checks of the image upload, and the
    missing-parameter check of the recommendation endpoint, which then hands the
    request to the recommender. */
module Api {

  import opened Common
  import opened Text
  import opened Recommender

  const InvalidFileType := HttpError(400, "Invalid file type. Only PNG and JPEG are supported")
  const InvalidContentType := HttpError(400, "Invalid content type. Only image files are supported")

  /** The lower-cased file name ends with `.png`, `.jpg` or `.jpeg`. */
  predicate HasImageExtension(filename: string)
  {
    var name := Lower(filename);
    EndsWith(name, ".png") || EndsWith(name, ".jpg") || EndsWith(name, ".jpeg")
  }

  /** The checks at the head of `upload_image`: the file name first, then the
      content type. Storing and resizing the image follow and are not modelled. */
  function ValidateUpload(filename: string, contentType: string): (r: Outcome)
    ensures r.Pass? <==> HasImageExtension(filename) && StartsWith(contentType, "image/")
    ensures r.Fail? ==> r.error.status == 400
  {
    if !HasImageExtension(filename) then Fail(InvalidFileType)
    else if !StartsWith(contentType, "image/") then Fail(InvalidContentType)
    else Pass
  }

  /** A bad file name is reported whatever the content type, and a bad content
      type only when the file name is acceptable. */
  lemma FileNameCheckedFirst(filename: string, contentType: string)
    ensures !HasImageExtension(filename) ==> ValidateUpload(filename, contentType) == Fail(InvalidFileType)
    ensures ValidateUpload(filename, contentType) == Fail(InvalidContentType) <==>
              HasImageExtension(filename) && !StartsWith(contentType, "image/")
  {
  }

  /** Names that differ only in the case of their letters are judged alike. */
  lemma ExtensionCaseInsensitive(a: string, b: string)
    requires Lower(a) == Lower(b)
    ensures HasImageExtension(a) == HasImageExtension(b)
  {
  }

  /** A text file is refused for its name, whatever its content type. */
  lemma TextFileRefusedByName()
    ensures ValidateUpload("test.txt", "text/plain") == Fail(InvalidFileType)
  {
    var lowered := Lower("test.txt");
    assert lowered[3] == 't' && lowered[5] == 't';
  }

  /** A `.jpg` name with a non-image content type is refused for its content type. */
  lemma NonImageContentTypeRefused()
    ensures ValidateUpload("test.jpg", "text/plain") == Fail(InvalidContentType)
  {
    var lowered := Lower("test.jpg");
    assert lowered[4..] == ".jpg" by {
      assert lowered[4] == '.' && lowered[5] == 'j' && lowered[6] == 'p' && lowered[7] == 'g';
    }
    assert "text/plain"[..6][0] == 't';
  }

  /** An upper-case extension passes. */
  lemma UpperCaseExtensionAccepted()
    ensures ValidateUpload("A.JPG", "image/jpeg") == Pass
  {
    var lowered := Lower("A.JPG");
    assert lowered[1..] == ".jpg" by {
      assert lowered[1] == '.' && lowered[2] == 'j' && lowered[3] == 'p' && lowered[4] == 'g';
    }
    assert "image/jpeg"[..6] == "image/";
  }

  /** A query parameter that Python treats as false: absent or empty. */
  predicate Falsy(param: Option<string>)
  {
    param.None? || param.value == ""
  }

  /** The names of the missing parameters, `weather` before `event_type`. */
  method MissingParameters(weather: Option<string>, eventType: Option<string>)
    returns (missingParams: seq<string>)
    ensures "weather" in missingParams <==> Falsy(weather)
    ensures "event_type" in missingParams <==> Falsy(eventType)
    ensures forall p :: p in missingParams ==> p == "weather" || p == "event_type"
    ensures |missingParams| <= 2
    ensures |missingParams| == 2 ==> missingParams == ["weather", "event_type"]
  {
    missingParams := [];
    if Falsy(weather) {
      missingParams := missingParams + ["weather"];
    }
    if Falsy(eventType) {
      missingParams := missingParams + ["event_type"];
    }
  }

  /** The fixed wardrobe the endpoint ranks. */
  function MockWardrobe(): (wardrobe: seq<WardrobeItem>)
    ensures |wardrobe| == 2
    ensures wardrobe[0].clothingType == "shirt" && wardrobe[1].clothingType == "pants"
  {
    [ WardrobeItem("shirt", "https://example.com/shirt.jpg", Rgb(255, 0, 0), ["red", "casual", "cotton"]),
      WardrobeItem("pants", "https://example.com/pants.jpg", Rgb(0, 0, 255), ["blue", "formal", "denim"]) ]
  }

  /** The recommender's default number of recommendations. */
  const DefaultTopN := 3

  /** The 400 answer for a request lacking `weather` or `event_type`: every
      missing name, `weather` first, joined by a comma and a space. */
  method MissingParametersError(weather: Option<string>, eventType: Option<string>)
    returns (error: HttpError)
    requires Falsy(weather) || Falsy(eventType)
    ensures Falsy(weather) && Falsy(eventType) ==>
              error == HttpError(400, "Missing required parameters: weather, event_type")
    ensures Falsy(weather) && !Falsy(eventType) ==>
              error == HttpError(400, "Missing required parameters: weather")
    ensures !Falsy(weather) && Falsy(eventType) ==>
              error == HttpError(400, "Missing required parameters: event_type")
  {
    var missingParams := MissingParameters(weather, eventType);
    if Falsy(weather) && Falsy(eventType) {
      assert missingParams == ["weather", "event_type"];
      assert Join(missingParams, ", ") == "weather" + ", " + Join(["event_type"], ", ");
    } else if Falsy(weather) {
      assert missingParams == ["weather"] by {
        assert missingParams[0] == "weather";
      }
    } else {
      assert missingParams == ["event_type"] by {
        assert missingParams[0] == "event_type";
      }
    }
    error := HttpError(400, "Missing required parameters: " + Join(missingParams, ", "));
  }

  /** `recommend_outfit`: reject a request lacking `weather` or `event_type`,
      naming every missing parameter; otherwise pass both, unchanged, to the
      recommender together with the wardrobe. */
  method RecommendOutfit(weather: Option<string>, eventType: Option<string>,
                         similarity: seq<string> -> seq<seq<real>>)
    returns (r: Result<seq<Recommendation>>, ghost sel: seq<nat>)
    requires !Falsy(weather) && !Falsy(eventType) ==>
               IsSquare(similarity(FeatureDocuments(MockWardrobe(), weather.value, eventType.value)), 2)
    ensures Falsy(weather) && Falsy(eventType) ==>
              r == Err(HttpError(400, "Missing required parameters: weather, event_type"))
    ensures Falsy(weather) && !Falsy(eventType) ==>
              r == Err(HttpError(400, "Missing required parameters: weather"))
    ensures !Falsy(weather) && Falsy(eventType) ==>
              r == Err(HttpError(400, "Missing required parameters: event_type"))
    ensures !Falsy(weather) && !Falsy(eventType) ==>
              && r.Ok? && |r.value| == 2
              && var scores := MeanScores(similarity(FeatureDocuments(MockWardrobe(), weather.value, eventType.value)));
                 IsTopSelection(scores, TopCount(2, DefaultTopN), sel)
                 && CopiesItems(r.value, MockWardrobe(), scores, sel)
  {
    if Falsy(weather) || Falsy(eventType) {
      var error := MissingParametersError(weather, eventType);
      r := Err(error);
      sel := [];
    } else {
      var recs;
      recs, sel := RecommendOutfits(MockWardrobe(), weather.value, eventType.value, DefaultTopN, similarity);
      r := Ok(recs);
    }
  }
}
