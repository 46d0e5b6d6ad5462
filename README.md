# StyleDNA wardrobe backend: a Dafny model of its deterministic rules

The backend photographs garments, stores their features and recommends items
from a user's wardrobe for a given weather and event. Most of the numerical
work happens inside libraries: k-means colours, Otsu thresholding and contours,
TF-IDF vectors and cosine similarity. This project models the rules the
repository writes itself, and proves what they promise:

- `Processor` (`processor.dfy`): the garment category rule, a three-way
  threshold on the aspect ratio width / height.
- `Recommender` (`recommender.dfy`): one feature document per wardrobe item,
  each item's mean similarity score, argsort, the Python slice `[-top_n:][::-1]`,
  and the building of recommendation records. The vectoriser and the cosine
  similarity are one opaque function from the batch of documents to a matrix.
  So the scores depend on this request's documents and on nothing else.
- `Api` (`api.dfy`): the validation branches of the application's upload
  handler (file name, then content type) and of its recommendation endpoint
  (every missing parameter named), which hands valid requests to the recommender.
- `UploadRoute` (`upload_image.dfy`): `allowed_file`, which looks at the text
  after the last dot, and the chunked size-limit loop of the upload route.
  It also proves that this check and the application's own extension check
  accept exactly the same file names.
- `ImageRepository` (`image_repository.dfy`): tag search and the wardrobe
  projection, over a list of user images that has already been fetched.
- `Common`, `RealOrder`, `Text` (`common.dfy`, `text.dfy`): shared datatypes,
  order facts about real division, and string helpers (ASCII lower-casing,
  prefix and suffix tests, join, and split as join's inverse).

Behaviour of the code that the model keeps as written:
- The category rule (backend/services/processor.py:80-88) has three results,
  "shirt", "pants" and "full_body", and divides by the height unguarded.
  A positive height is therefore a precondition.
- A feature document (backend/services/recommender.py:45-52) holds the clothing
  type, the weather, the event type and the stored tags, and nothing derived
  from them.
- Equal scores have no fixed order: `np.argsort` (backend/services/recommender.py:73)
  is called with its default, unstable sort, so the model promises no order
  among ties.
- The vectoriser fails on zero documents, so an empty wardrobe has no answer.
  A non-empty wardrobe is a precondition of the pipeline
  (backend/services/recommender.py:11-35).

## Model

| member | source | states |
|---|---|---|
| `Processor.PredictClothingType` | backend/services/processor.py:71-88 | the category is always one of "shirt", "pants", "full_body"; the height must be positive because the ratio is an unguarded division |
| `Processor.RatioThresholds` | backend/services/processor.py:80-86 | `width/height > 1.5` holds exactly when `2*width > 3*height`, and `width/height < 0.7` exactly when `10*width < 7*height` |
| `Processor.ClothingTypeByDimensions` | backend/services/processor.py:83-88 | "shirt" exactly when `2w > 3h`, "pants" exactly when `10w < 7h`, "full_body" exactly for ratios from 0.7 to 1.5 inclusive |
| `Processor.ScaleInvariant` | backend/services/processor.py:77-88 | scaling width and height by the same positive factor leaves the category unchanged |
| `Processor.Examples` | backend/services/processor.py:83-88 | 200x100 is a shirt, 100x200 pants, 150x150 full body; ratios exactly 1.5 and 0.7 are full body |
| `Recommender.FeatureDocuments` | backend/services/recommender.py:45-52 | one document per wardrobe item, in wardrobe order |
| `Recommender.FeatureDocumentLayout` | backend/services/recommender.py:45-52 | a document is the clothing type, weather and event type separated by single spaces, then a space and each tag in stored order |
| `Recommender.DocumentsShareContext` | backend/services/recommender.py:45-52 | every document of a request starts with its item's clothing type followed by the same weather and event type |
| `Recommender.FeatureDocumentWords` | backend/services/recommender.py:45-52 | when no field contains a space, splitting a document on spaces gives back exactly clothing type, weather, event type and the tags |
| `Recommender.MeanScores` | backend/services/recommender.py:70 | one score per matrix row, each the mean of the whole row, the item's similarity with itself included |
| `Recommender.MeanWithin` | backend/services/recommender.py:70 | a row mean lies between any lower and upper bound of the row's entries |
| `Recommender.ScoresWithinUnitInterval` | backend/services/recommender.py:70 | if all similarities lie in [0, 1] then so does every item's score |
| `Recommender.ArgSort` | backend/services/recommender.py:73 | the result holds each index of the scores exactly once (a permutation of 0..n-1), in ascending order of score |
| `Recommender.TopCount` | backend/services/recommender.py:73 | `[-top_n:]` keeps `min(top_n, n)` items for `top_n >= 1`, all `n` for `top_n = 0`, and `max(0, n + top_n)` for negative `top_n` |
| `Recommender.TopOfArgSort` | backend/services/recommender.py:73 | the reversed tail of an ascending argsort holds distinct in-range indices, in non-increasing score order, and no omitted item scores above a kept one |
| `Recommender.GetTopRecommendations` | backend/services/recommender.py:62-87 | the records are for a top selection of `TopCount(n, top_n)` items; each copies its item's clothing type, image URL, dominant colour and tags and carries its mean score; scores are non-increasing |
| `Recommender.RecommendOutfits` | backend/services/recommender.py:11-35 | the same ranking, for scores computed from the similarity of this request's feature documents |
| `Api.HasImageExtension` | backend/main.py:83 | the lower-cased name ends in .png, .jpg or .jpeg; its meaning is stated by `Api.ValidateUpload`, `Api.ExtensionCaseInsensitive` and `UploadRoute.ExtensionChecksAgree` |
| `Api.ValidateUpload` | backend/main.py:81-94 | an upload passes exactly when the lower-cased name ends in .png, .jpg or .jpeg and the content type starts with "image/"; a refusal has status 400 |
| `Api.FileNameCheckedFirst` | backend/main.py:83-94 | a bad file name is reported whatever the content type; the content-type error appears exactly when the name is fine and the type is not an image type |
| `Api.ExtensionCaseInsensitive` | backend/main.py:83 | names equal up to letter case are judged alike |
| `Api.TextFileRefusedByName` | backend/main.py:83-87 | "test.txt" with "text/plain" is refused as an invalid file type, before its content type is looked at |
| `Api.NonImageContentTypeRefused` | backend/main.py:83-94 | "test.jpg" with "text/plain" passes the name check and is refused as an invalid content type |
| `Api.UpperCaseExtensionAccepted` | backend/main.py:83-94 | "A.JPG" with "image/jpeg" passes: the extension is compared after lower-casing |
| `Api.Falsy` | backend/main.py:153-157 | a parameter counts as missing when absent or empty; `Api.MissingParameters` states what follows from it |
| `Api.MissingParameters` | backend/main.py:153-158 | the list names "weather" exactly when it is absent or empty and "event_type" likewise, nothing else, weather first |
| `Api.MissingParametersError` | backend/main.py:153-162 | status 400 whose detail lists exactly the missing names, "weather, event_type" when both are missing |
| `Api.MockWardrobe` | backend/main.py:165-178 | the fixed wardrobe has exactly two items, the shirt first and the pants second |
| `Api.RecommendOutfit` | backend/main.py:134-187 | each combination of missing parameters gives status 400 with the exact detail listing them; with both present the recommender ranks the two wardrobe items under the unchanged weather and event type |
| `UploadRoute.AfterLastDot` | backend/api/upload_image.py:14 | the result is the dot-free text that follows the last dot of the name |
| `UploadRoute.AllowedFile` | backend/api/upload_image.py:13-14 | `allowed_file`; its meaning is stated by `UploadRoute.AllowedFileMeaning` and `UploadRoute.ExtensionChecksAgree` |
| `UploadRoute.AfterLastDotAt` | backend/api/upload_image.py:14 | any dot with no dot after it marks where the extension starts |
| `UploadRoute.AllowedFileMeaning` | backend/api/upload_image.py:13-14 | `allowed_file` holds exactly when the name has a last dot and the lower-cased text after it is jpg, jpeg or png |
| `UploadRoute.ExtensionChecksAgree` | backend/api/upload_image.py:13-14 | `allowed_file` accepts exactly the names whose lower-cased form ends in .png, .jpg or .jpeg, the check of backend/main.py:83 |
| `UploadRoute.ImageExtensionIsAllowed` | backend/api/upload_image.py:13-14 | a name passing the application's suffix check passes `allowed_file` |
| `UploadRoute.AllowedIsImageExtension` | backend/api/upload_image.py:13-14 | a name passing `allowed_file` passes the application's suffix check |
| `UploadRoute.LastExtensionDecides` | backend/api/upload_image.py:13-14 | only the text after the last dot counts, in any case: "a.png.txt" is refused and "a.txt.PNG" accepted |
| `UploadRoute.NameWithoutDotRefused` | backend/api/upload_image.py:13-14 | a name without a dot is refused even when it spells an allowed extension |
| `UploadRoute.TotalSizeMonotone` | backend/api/upload_image.py:23-25 | the running total never decreases as chunks are read |
| `UploadRoute.ValidateUpload` | backend/api/upload_image.py:17-27 | a bad extension is refused before any chunk is read; the running total is the sum of the chunks read; the upload passes exactly when the whole stream is at most 10 MiB (the limit itself included); otherwise it stops at the first chunk that takes the total past the limit |
| `ImageRepository.ToDict` | backend/models/image_metadata.py:19-29 | `to_dict` of one record: every field copied verbatim and the upload time rendered by `isoformat` |
| `ImageRepository.SearchByTags` | backend/models/image_repository.py:41-54 | the result holds exactly the images with at least one query tag, in input order as a subsequence, never longer than the input; an empty query finds nothing |
| `ImageRepository.SearchKeepsMultiplicity` | backend/models/image_repository.py:47-51 | every image with a query tag appears in the result as many times as in the input, every other image not at all |
| `ImageRepository.SearchMonotone` | backend/models/image_repository.py:47-51 | adding query tags never removes a result |
| `ImageRepository.GetWardrobe` | backend/models/image_repository.py:56-63 | one record per image, in the same order, every field copied verbatim and the upload time rendered by `isoformat` |
| `ImageRepository.SearchCommutesWithWardrobe` | backend/models/image_repository.py:41-63 | searching the images and then projecting them equals projecting them and then filtering the records by the same tags |

## Left out

- Colour clustering, contour bounding boxes and image decoding in `process_image`: library numerics (k-means, OpenCV) with no visible rule to model besides the image dimensions.
- TF-IDF vectorisation and cosine similarity: library floating-point numerics. They are the `similarity` function parameter, applied to the request's documents. The refit of the recommender's `vectorizer` field on each call is state inside that library object, so no class is modelled for it.
- The `features` column that `_create_feature_vectors` writes into the DataFrame is modelled as the returned sequence of documents. No other column is read by the ranking.
- Processor.PredictClothingType: the ratio is an exact real quotient, not an IEEE double. For image sizes that can occur, both agree with the integer comparisons proved here.
- Recommender.MeanScores: means are exact reals; numpy's floating-point rounding is not modelled.
- Recommender.ArgSort: any order of equal scores is allowed, because numpy's default sort is not stable. The insertion sort only stands in for numpy's sort and fixes one such order.
- Text.Lower: only ASCII letters are folded; Unicode case mapping of non-ASCII names is not modelled.
- Error paths turned into status 500 (an exception inside the recommender, the temporary file, the resize and the storage upload) and the success payloads of both upload handlers: I/O and network.
- The database query of `get_by_user_id` (user filter, offset and limit of 100) and the `try`/`except` blocks returning `[]` on a database error: the images list is an input and always well formed.
- The MIME allow-list and `imghdr` sniffing of backend/app/routes/upload.py, storage, repositories and the database setup: not part of this model.
- Content relevance of rankings (a casual event favouring casual items) depends on the TF-IDF numerics and is not stated.
- A `from_dict` round trip of metadata records: no such function exists in the code.
