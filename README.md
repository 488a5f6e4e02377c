# Captcha challenge engine: a verified Dafny model

This project models the core of a text-captcha service.

- **Answer text.** `TextCreatorUtils.getText` draws 5 characters from a fixed 36-slot table. Easily confused glyphs are not in the table.
- **Collision-aware glyph packing.** In `WordRendererUtils`:
  - `calculateBlankNum` counts, for each pixel row of a glyph bitmap, the blank columns on its left and right;
  - `calculateDistanceBetweenChar2` combines the counts of two neighbouring glyphs row by row and takes the minimum with `min`;
  - `appendImages` centres the run of glyphs on the canvas and pulls each glyph left by its distance plus 2, so that neighbours overlap slightly on purpose;
  - `renderWord` makes one square bitmap per character and hands them to `appendImages`.
- **Token lifecycle.** In `CaptchaServiceImpl`:
  - `createCaptcha` claims a fresh key `captcha:<token>` for the answer with SET-if-absent and a 180-second time-to-live;
  - `verifyCaptcha` rejects blank input, looks the token up, deletes a found binding whatever happens next, and compares the answer ignoring case.

Modules:

- `Results`: `Option`, `Result` and `Fault`. A Java method that throws returns `Err(fault)`.
- `TextCreator`: the table and `GetText`. The random draws are the parameter `rolls`.
- `Layout`: the packing arithmetic as pure functions on ink masks, per-row margins, distances and x positions.
- `WordRenderer`: the imperative methods. Each is proved against the `Layout` definitions.
  - `CalculateBlankNum` fills an `array2` in nested loops.
  - `CheckArray` and `Min` loop over arrays.
  - `CalculateDistanceBetweenChar2`, `SumDistances` and `PlaceGlyphs` are the loops of `appendImages`.
  - `RenderWord` fills the glyph list.
  - Glyph bitmaps are `Raster` values of ARGB pixels. Font rendering is the parameter `paint`. The canvas is the list of `drawImage` calls made onto it.
- `RedisStore`: the string store behind `StringRedisTemplate`.
  - It is a class holding a map from keys to (value, deadline) and an integer clock in seconds.
  - It has SET NX with a time-to-live, GET and DEL.
  - Advancing the clock drops expired bindings.
  - A ghost counter records round trips to the store.
- `CaptchaService`: the class `CaptchaServiceImpl` over a `Store`.
  - The verification decision is also stated as the pure function `VerifyStep`, and the service's properties are proved about it.
  - The tokens `RandomStringUtils` would produce are the parameter `candidates`.

The left blank count keeps the source's quirk. Column 0 also means "not yet found", so ink in column 0 of a row never sets the count.

- `Layout.LeftBlankIgnoresColumnZero` states the quirk.
- `WordRenderer.NeighboursDoNotCollide` states what the distance measures: at offset `width - distance` the right glyph's ink would lie strictly right of the left glyph's ink, on rows where its column 0 has no ink.
- `appendImages` then draws each glyph 2 columns further left than that offset. `WordRenderer.PlacedNeighboursOverlapByAtMostOne` bounds the resulting overlap: on rows where the right glyph has no ink in column 0, its ink lands at most one column left of the left glyph's ink. `Layout.TighteningOverlapsInk` shows that the overlap is real.
- `Layout.ColumnZeroInkMisplaced` shows a pair whose right glyph, having ink in column 0, is drawn 3 columns left of the left glyph's last ink, beyond that bound.

## Model

| member | source | states |
|---|---|---|
| TextCreator.TextOf | src/main/java/com/example/captcha/util/TextCreatorUtils.java:39-46 | definition of the answer text from the draws: 5 characters, every one from the table; GetText and TextAvoidsAmbiguous state the properties |
| TextCreator.GetText | src/main/java/com/example/captcha/util/TextCreatorUtils.java:39-46 | the text has LENGTH = 5 characters; character i is the table slot of draw i; every character is in the table; no error path |
| TextCreator.TableAvoidsAmbiguous | src/main/java/com/example/captcha/util/TextCreatorUtils.java:11-21 | none of 0, O, 1, I, l, L, i, o is in the table |
| TextCreator.TableIsAlphanumeric | src/main/java/com/example/captcha/util/TextCreatorUtils.java:14-21 | every slot holds an ASCII letter or digit |
| TextCreator.TableSlots | src/main/java/com/example/captcha/util/TextCreatorUtils.java:14-21 | the table has 36 slots, and 'n' is in exactly slots 30 and 32 |
| TextCreator.RankInvertsTable | src/main/java/com/example/captcha/util/TextCreatorUtils.java:14-21 | Rank maps each slot's character back to that slot, except for the second 'n' |
| TextCreator.TableSlotsDistinct | src/main/java/com/example/captcha/util/TextCreatorUtils.java:14-21 | two slots holding the same character both hold 'n', so draws are uniform over slots, not characters |
| TextCreator.TextAvoidsAmbiguous | src/main/java/com/example/captcha/util/TextCreatorUtils.java:39-46 | every generated text has 5 characters, all from the table and none ambiguous |
| TextCreator.RankLocates | src/main/java/com/example/captcha/util/TextCreatorUtils.java:14-21 | every character of the table has a slot Rank finds |
| TextCreator.EveryTextReachable | src/main/java/com/example/captcha/util/TextCreatorUtils.java:39-46 | every 5-character string over the table is produced by some sequence of draws |
| Layout.LeftBlank | src/main/java/com/example/captcha/util/WordRendererUtils.java:151-165 | definition of the left blank count of one row (result[i][0]): 0, or a column after 0 that holds ink; LeftBlankIsFirstInkAfterColumnZero characterises it fully |
| Layout.RightBlank | src/main/java/com/example/captcha/util/WordRendererUtils.java:151-165 | definition of the right blank count of one row (result[i][1]): the width, or a count that points at an ink column; RightBlankIsAfterLastInk characterises it fully |
| Layout.LeftBlankIsFirstInkAfterColumnZero | src/main/java/com/example/captcha/util/WordRendererUtils.java:158-164 | the left count is 0 iff no column after 0 has ink; otherwise it is the first ink column after column 0 |
| Layout.LeftBlankIgnoresColumnZero | src/main/java/com/example/captcha/util/WordRendererUtils.java:162-164 | clearing column 0 never changes the left count, because 0 doubles as "unset" |
| Layout.RightBlankIsAfterLastInk | src/main/java/com/example/captcha/util/WordRendererUtils.java:151-165 | a row without ink keeps the full width; otherwise the right count is width-1 minus the last ink column |
| Layout.RowMarginBounds | src/main/java/com/example/captcha/util/WordRendererUtils.java:151-165 | left count in [0, width); right count in [0, width], and at most width-1 when the row has ink |
| Layout.SeqMin | src/main/java/com/example/captcha/util/WordRendererUtils.java:200-208 | definition of `min`: at most Integer.MAX_VALUE and at most every element; SeqMinIsMinimum and SeqMinAttained add that it is attained |
| Layout.SeqMinIsMinimum | src/main/java/com/example/captcha/util/WordRendererUtils.java:200-208 | the minimum is at most Integer.MAX_VALUE and at most every element, and it is MAX_VALUE or one of the elements |
| Layout.SeqMinAttained | src/main/java/com/example/captcha/util/WordRendererUtils.java:200-208 | for a non-empty array of ints the minimum is one of its elements |
| Layout.PairDistance | src/main/java/com/example/captcha/util/WordRendererUtils.java:123-138 | definition of calculateDistanceBetweenChar2 on blank-count tables: at most MAX_VALUE and at most every row gap; PairDistanceIsMinOfGaps and PairDistanceIsTightestRow state the rest |
| Layout.PairDistanceIsMinOfGaps | src/main/java/com/example/captcha/util/WordRendererUtils.java:129-137 | the pair distance is the min of the per-row gaps left[i][1] + (right[i][0] == 0 ? leftWidth : right[i][0]) |
| Layout.PairDistanceIsTightestRow | src/main/java/com/example/captcha/util/WordRendererUtils.java:129-137 | the distance is at most every row's gap and equal to one of them; with no rows it is Integer.MAX_VALUE |
| Layout.NoCollisionAtDistance | src/main/java/com/example/captcha/util/WordRendererUtils.java:129-137 | what the distance measures: at offset width - distance (before the extra 2 of appendImages), a right row's ink would lie strictly right of the left row's ink, unless its column 0 has ink |
| Layout.TightenedNeighboursOverlapByAtMostOne | src/main/java/com/example/captcha/util/WordRendererUtils.java:105-110 | at the offset appendImages uses, width - (distance + 2), a right row's ink lands at most one column left of the left row's ink, unless its column 0 has ink |
| Layout.TighteningOverlapsInk | src/main/java/com/example/captcha/util/WordRendererUtils.java:105-110 | a concrete pair ([T,T,T] then [F,T,F], distance 1) whose right glyph is drawn at the left glyph's x, so its ink lands left of the left glyph's ink |
| Layout.ColumnZeroInkMisplaced | src/main/java/com/example/captcha/util/WordRendererUtils.java:162-164 | a concrete pair ([T,T] then [T,F]) whose right glyph is drawn at x = -2, three columns left of the left glyph's last ink, because ink in column 0 is not seen |
| Layout.GlyphX | src/main/java/com/example/captcha/util/WordRendererUtils.java:101-110 | definition of the x each glyph is drawn at, the drawX recurrence; GlyphXClosedForm gives its closed form |
| Layout.GlyphXClosedForm | src/main/java/com/example/captcha/util/WordRendererUtils.java:101-110 | glyph k is drawn at start + (widths before k) - (distances before k) - 2k |
| Layout.StartX | src/main/java/com/example/captcha/util/WordRendererUtils.java:96-99 | definition of the initial drawX: never negative, and when the run is narrower than the canvas it leaves at least as much room on the right as on the left; StartXCentres states it exactly |
| Layout.StartXCentres | src/main/java/com/example/captcha/util/WordRendererUtils.java:96-99 | start is 0 when n*w0 - d is not narrower than the canvas; otherwise a run of that width starting there lies inside the canvas, and the space on its right exceeds the space on its left by the parity of the slack |
| Layout.CentredRunIsShiftedLeft | src/main/java/com/example/captcha/util/WordRendererUtils.java:96-110 | for glyphs of equal width, the space right of the last glyph exceeds the space left of the first by 2 per join (plus the odd pixel), because the start ignores the +2 the placement applies |
| Layout.SingleGlyphPlacement | src/main/java/com/example/captcha/util/WordRendererUtils.java:96-103 | a single glyph is centred, or at 0 when not narrower than the canvas, with no distance computed |
| WordRenderer.InkIffSamplesNonZero | src/main/java/com/example/captcha/util/WordRendererUtils.java:160-161 | a pixel is ink iff its four samples are not all 0 |
| WordRenderer.ScanIsLayoutScan | src/main/java/com/example/captcha/util/WordRendererUtils.java:158-167 | the column-by-column scan of a row after j columns equals the Layout counts of the first j ink flags |
| WordRenderer.MarginAtIsBlankTable | src/main/java/com/example/captcha/util/WordRendererUtils.java:146-170 | the scan of row y is entry y of the blank-count table |
| WordRenderer.DistanceRowsIsPairDistance | src/main/java/com/example/captcha/util/WordRendererUtils.java:129-137 | the running min over the first rows is Layout's pair distance of those rows |
| WordRenderer.DistanceIsPairDistance | src/main/java/com/example/captcha/util/WordRendererUtils.java:123-138 | the distance of two images is Layout's pair distance of their blank-count tables |
| WordRenderer.BlankCountsLocateInk | src/main/java/com/example/captcha/util/WordRendererUtils.java:151-165 | the left count is the first ink pixel after column 0 (0 if none); the right count locates the last ink pixel, or is the width for an empty row |
| WordRenderer.NeighboursDoNotCollide | src/main/java/com/example/captcha/util/WordRendererUtils.java:123-138 | at offset width - distance (before the extra 2), ink of the right image would lie strictly right of ink of the left image in the same row, unless its column 0 has ink |
| WordRenderer.PlacedNeighboursOverlapByAtMostOne | src/main/java/com/example/captcha/util/WordRendererUtils.java:105-110 | in the composition appendImages draws, ink of glyph k+1 lands at most one column left of ink of glyph k in the same row, unless glyph k+1 has ink in its column 0 |
| WordRenderer.MinOfGapsIsDistance | src/main/java/com/example/captcha/util/WordRendererUtils.java:129-137 | min of the filled tempArray prefix is the image distance over those rows |
| WordRenderer.GetPixel | src/main/java/com/example/captcha/util/WordRendererUtils.java:160 | the buffer holds the four ARGB samples of pixel (x, y) |
| WordRenderer.CheckArray | src/main/java/com/example/captcha/util/WordRendererUtils.java:179-192 | true iff both arrays are non-null and equal element-wise (hence of equal length) |
| WordRenderer.CalculateBlankNum | src/main/java/com/example/captcha/util/WordRendererUtils.java:146-170 | a fresh height x 2 table whose row y holds the left and right blank counts of pixel row y |
| WordRenderer.Min | src/main/java/com/example/captcha/util/WordRendererUtils.java:200-208 | the result is the minimum, at most Integer.MAX_VALUE and at most every element |
| WordRenderer.CalculateDistanceBetweenChar2 | src/main/java/com/example/captcha/util/WordRendererUtils.java:123-138 | throws index-out-of-bounds exactly when the right image has fewer rows; otherwise returns the min over rows of the gaps |
| WordRenderer.SumUpToIsSumOfDists | src/main/java/com/example/captcha/util/WordRendererUtils.java:90-94 | the accumulated d after count images is the sum of the first count-1 pair distances |
| WordRenderer.SumDistances | src/main/java/com/example/captcha/util/WordRendererUtils.java:90-94 | d is the sum of all neighbouring distances; a pair whose right image has fewer rows throws |
| WordRenderer.ProgressIsRun | src/main/java/com/example/captcha/util/WordRendererUtils.java:101-111 | after each iteration the draws made are the run's first glyphs, and drawX is x of the last one plus its width |
| WordRenderer.ProgressCompletesRun | src/main/java/com/example/captcha/util/WordRendererUtils.java:105-111 | when the loop ends, the draws are the whole run |
| WordRenderer.RunSpacing | src/main/java/com/example/captcha/util/WordRendererUtils.java:101-110 | the first glyph is at start; glyph k+1 is at x_k + w_k - (dist + 2), y = 0, with its own width and image 0's height |
| WordRenderer.PlaceGlyphs | src/main/java/com/example/captcha/util/WordRendererUtils.java:100-111 | the draws made are exactly the run starting at the centred x |
| WordRenderer.AppendImages | src/main/java/com/example/captcha/util/WordRendererUtils.java:82-114 | non-positive canvas size throws illegal-argument; no images or a short right neighbour throws index-out-of-bounds; otherwise the centred composition |
| WordRenderer.Glyph | src/main/java/com/example/captcha/util/WordRendererUtils.java:43-67 | definition of one glyph bitmap: size x size, pixels as the rasteriser paints them; the properties that matter are stated by WordGlyphs and RenderWord |
| WordRenderer.WordGlyphs | src/main/java/com/example/captcha/util/WordRendererUtils.java:37-43 | one height x height bitmap per character, in order, so every pair of neighbours fits |
| WordRenderer.RenderWord | src/main/java/com/example/captcha/util/WordRendererUtils.java:35-72 | succeeds iff the word is non-empty and both sizes are positive; a non-positive height or width throws illegal-argument (the glyph or canvas BufferedImage), an empty word with positive sizes throws at images[0]; the result is the composition of the word's glyphs |
| WordRenderer.GetRandomInRange | src/main/java/com/example/captcha/util/WordRendererUtils.java:216-221 | throws exactly when the range is missing or its length is not 2; otherwise a draw in [0, 1] lands in [range[0], range[1]] |
| WordRenderer.ConfiguredRangesAccepted | src/main/java/com/example/captcha/util/WordRendererUtils.java:14-18 | scaleRange yields factors in [0.5, 1]; shearRange always yields 0 |
| RedisStore.Purge | src/main/java/com/example/captcha/services/CaptchaServiceImpl.java:36 | definition of expiry: exactly the bindings whose deadline is after t survive, unchanged; the properties that matter are LiveForTtl and Store.Advance |
| RedisStore.LiveForTtl | src/main/java/com/example/captcha/services/CaptchaServiceImpl.java:36 | a binding set with time-to-live ttl is still there s seconds later iff s < ttl, holding its value |
| RedisStore.Store.constructor | src/main/java/com/example/captcha/services/CaptchaServiceImpl.java:24-25 | an empty store at time 0 |
| RedisStore.Store.SetIfAbsent | src/main/java/com/example/captcha/services/CaptchaServiceImpl.java:36 | succeeds iff the key is unbound, then binds it with deadline now + ttl; on failure nothing changes |
| RedisStore.Store.Get | src/main/java/com/example/captcha/services/CaptchaServiceImpl.java:64 | returns the live value of the key, or none; no binding changes |
| RedisStore.Store.Delete | src/main/java/com/example/captcha/services/CaptchaServiceImpl.java:69 | removes exactly that key's binding |
| RedisStore.Store.Advance | src/main/java/com/example/captcha/services/CaptchaServiceImpl.java:36 | the clock moves on and every expired binding is dropped |
| CaptchaService.Code | src/main/java/com/example/captcha/enums/RepCodeEnum.java:13-21 | every repCode is a 4-character string |
| CaptchaService.CodesDistinct | src/main/java/com/example/captcha/enums/RepCodeEnum.java:13-21 | the codes 0000, 0011, 6110 and 6111 tell the four outcomes apart |
| CaptchaService.CacheKey | src/main/java/com/example/captcha/services/CaptchaServiceImpl.java:63 | definition of the store key: "captcha:" followed by the token, from which the token can be read back; CacheKeyInjective states injectivity |
| CaptchaService.CacheKeyInjective | src/main/java/com/example/captcha/services/CaptchaServiceImpl.java:23-35 | every key starts with "captcha:", and two tokens share a key iff they are equal |
| CaptchaService.IsWhitespace | src/main/java/com/example/captcha/services/CaptchaServiceImpl.java:59 | definition of Character.isWhitespace: contains space, tab, newline and carriage return, excludes the no-break spaces U+00A0, U+2007 and U+202F, never holds of a letter or digit, and lies in the Basic Multilingual Plane |
| CaptchaService.IsBlank | src/main/java/com/example/captcha/services/CaptchaServiceImpl.java:59 | definition of StringUtils.isBlank: the empty string is blank, and a blank string holds no letter or digit |
| CaptchaService.TokenNotBlank | src/main/java/com/example/captcha/services/CaptchaServiceImpl.java:59 | a 16-character alphanumeric token is never blank |
| CaptchaService.TextNotBlank | src/main/java/com/example/captcha/services/CaptchaServiceImpl.java:59 | a generated answer text is never blank |
| CaptchaService.EqualsIgnoreCase | src/main/java/com/example/captcha/services/CaptchaServiceImpl.java:72 | definition of String.equalsIgnoreCase: every string matches itself; matching strings have equal length and equal characters after upper- then lower-casing |
| CaptchaService.EqualsIgnoreCaseIsUpperCaseEquality | src/main/java/com/example/captcha/services/CaptchaServiceImpl.java:72 | two strings match ignoring case iff their upper-case forms are equal |
| CaptchaService.UpperCaseAnswerMatches | src/main/java/com/example/captcha/services/CaptchaServiceImpl.java:72 | an answer typed in upper case matches |
| CaptchaService.VerifyStep | src/main/java/com/example/captcha/services/CaptchaServiceImpl.java:57-77 | the decision of verifyCaptcha on the live bindings: NULL_ERROR iff token or code is blank; no binding is added or altered; the bindings change iff the outcome is SUCCESS or API_CAPTCHA_COORDINATE_ERROR; BlankIsNullError to SecondVerifyIsInvalid state the cases |
| CaptchaService.BlankIsNullError | src/main/java/com/example/captcha/services/CaptchaServiceImpl.java:59-61 | a blank token or code gives NULL_ERROR and leaves the bindings unchanged |
| CaptchaService.UnboundTokenIsInvalid | src/main/java/com/example/captcha/services/CaptchaServiceImpl.java:63-67 | with non-blank input, API_CAPTCHA_INVALID comes exactly when the key is unbound, and then nothing changes |
| CaptchaService.BoundTokenIsConsumed | src/main/java/com/example/captcha/services/CaptchaServiceImpl.java:63-76 | a found binding is deleted whatever the outcome; SUCCESS iff the code matches ignoring case, API_CAPTCHA_COORDINATE_ERROR otherwise |
| CaptchaService.VerifyTouchesOnlyItsKey | src/main/java/com/example/captcha/services/CaptchaServiceImpl.java:63-69 | every key other than "captcha:"+token is untouched |
| CaptchaService.SecondVerifyIsInvalid | src/main/java/com/example/captcha/services/CaptchaServiceImpl.java:64-70 | after a verification with non-blank token and code, a second non-blank attempt with that token gives API_CAPTCHA_INVALID |
| CaptchaService.FirstFree | src/main/java/com/example/captcha/services/CaptchaServiceImpl.java:33-37 | the loop stops at the first candidate whose key is unbound; every earlier candidate's key is bound; none means all are bound |
| CaptchaService.IssuedAnswerVerifiesOnce | src/main/java/com/example/captcha/services/CaptchaServiceImpl.java:28-77 | issuing then verifying with the answer gives SUCCESS and restores the previous bindings; a second attempt is invalid |
| CaptchaService.ExpiredTokenIsInvalid | src/main/java/com/example/captcha/services/CaptchaServiceImpl.java:63-67 | once 180 seconds have passed, the token is invalid without any verification |
| CaptchaService.CaptchaServiceImpl.constructor | src/main/java/com/example/captcha/services/CaptchaServiceImpl.java:24-25 | the service uses the given store |
| CaptchaService.CaptchaServiceImpl.CreateCaptcha | src/main/java/com/example/captcha/services/CaptchaServiceImpl.java:28-37 | the text is drawn once; the first free candidate's key, absent before, now maps to that text for 180 s; rejected candidates change nothing; all taken gives RetriesExhausted with the store unchanged |
| CaptchaService.CaptchaServiceImpl.VerifyCaptcha | src/main/java/com/example/captcha/services/CaptchaServiceImpl.java:57-77 | outcome and bindings as VerifyStep; blank input makes no store round trip; no binding is added or altered, only removed |

## Left out

- ImageCreatorUtils.java is not part of this model. It covers distortion, noise curves, shadow and ripple filters, and the background: floating-point Java2D and foreign filter code.
- JPEG encoding, Base64, the swallowed IOException, and the CaptchaVO/ResponseModel envelope of createCaptcha (CaptchaServiceImpl.java:39-54) are left out. They are I/O and library code. CreateCaptcha returns the token and the text the image would show.
- Response messages (`repMsg`, MessageFormat in parseError) are left out. Only the four repCode outcomes are modelled.
- Font rendering in renderWord (font, colour, rendering hints, AffineTransform scale/rotate/shear, FontMetrics centring, drawString) is left out. It becomes the `paint` parameter of WordRenderer.RenderWord.
- WordRenderer.GetRandomInRange: Java `double` arithmetic (here and in ScaleRange and ShearRange) is modelled with exact reals, so rounding is not modelled.
- WordRenderer.GetRandomInRange: `Math.random()` is the parameter u, and its value is not traced into the glyphs. rotateRange (±π/5) is not represented, since π has no exact value here.
- Pixel compositing of drawImage onto the canvas (alpha blending, scaling every glyph to images[0]'s height) is left out. The canvas records the draw calls: image index, x, y, width, height.
- Java's 32-bit int arithmetic is left out. Sums of distances and positions are unbounded integers, so overflow of `d` or `drawX` for very wide runs is not modelled.
- CaptchaService.CaptchaServiceImpl.CreateCaptcha: the do-while retries without bound. The model tries a finite list of candidate tokens and reports RetriesExhausted when every one is taken.
- CaptchaService.EqualsIgnoreCaseIsUpperCaseEquality: case mapping covers the ASCII letters only. Java's case mapping of other letters is not modelled. Submitted answers are not restricted to ASCII, so CaptchaService.CaptchaServiceImpl.VerifyCaptcha can differ from Java there: for the answer "K", a submitted U+212A KELVIN SIGN in its place is accepted by Java's equalsIgnoreCase (both lower-case to 'k') but answered ApiCaptchaCoordinateError by the model.
- Java strings are UTF-16 code units and Dafny strings are Unicode scalar values. Character.isWhitespace is modelled on its code-point set, which lies in the Basic Multilingual Plane.
- Redis transport, connection failures and concurrency are left out. In particular, two concurrent verifications racing between GET (line 64) and DEL (line 69) are not modelled; VerifyCaptcha is one sequential step.
- RedisStore.Store.Advance: expiry is an eager purge when the clock moves, rather than Redis's lazy and periodic expiry. GET and SET NX observe the same bindings either way.
- The seeding of TextCreatorUtils' Random from the clock is left out. The draws are the parameter `rolls`.
- CaptchaController and the CaptchaService interface (Spring wiring) are not part of this model.
