# Mosaic generator — a Dafny model

The service answers `POST /generate-mosaic` with a 1080 × 1080 JPEG. It downloads four
images, stretches each one to a 540 × 540 tile, and pastes the tiles as a 2 × 2 grid in
input order. It then writes a caption centred near the bottom, over a dark rectangle. The
caption is the request's `date_text`, or `"Vendredi "` followed by today's date. The service
also answers `GET /health` with a fixed JSON payload.

This project models the handler's own logic as pure functions:

- **Request checks** (`MosaicService.Admit`). The parsed body is a `Json` value: the value
  Python's `json` produced. A number is held as the value Python holds, so a literal that
  underflows, such as `1e-400`, is zero. `NaN`, `Infinity` and `-Infinity` are
  `JNonFinite`. Python's meaning of `not data`, `'images' in data`, `data['images']`,
  `len(...)` and `for ... in ...` is written out for every kind of value (`Json` module). This
  includes the cases where Python raises `TypeError` and the catch-all answers 500.
- **Download loop** (`Fetch.FetchAll`, `Fetch.Receive`). The GET, `raise_for_status` and
  `Image.open` are an input function `net: Json -> FetchResult`. `Image.open` reads only the
  image header. Reading the pixels is a second input, `decode`, which gives Pillow's error
  message for pixel data it cannot read. The `convert('RGB')` in the loop reads the pixels of
  a non-RGB image. The loop returns the images, or the first failing index and its cause. It
  also returns the list of URLs it requested, so "nothing was downloaded" and "no later URL was
  requested" can be stated.
- **Layout** (`Layout`). The tile positions, which tile a canvas pixel shows (`Owner`, with
  later pastes winning), the caption anchor and the backing rectangle. Pixels, fonts and
  encoding are not modelled. The text box that Pillow measures is an input (`TextBox`).
- **Formatting** (`Digits`, `Clock`). `str(i+1)` in the failure message, the `DD/MM/YYYY`
  default caption and the `YYYYMMDD_HHMMSS` file-name timestamp. Each format has a parser
  that is proved to be its inverse.
- **The handler** (`MosaicService.Generate`). One function from the body, the network, the
  pixel decoder, the text measurement and the two clock readings to a `Response` with status 200, 400 or 500,
  together with the requested URLs.

The handler's documented contract (its docstring at app.py:17-25 and the `/` page) describes a
list of four URLs. The code is more permissive, and the model follows the code:

- The code accepts any `images` value that has a length of 4, not only a list. A 4-character
  string yields four one-character "URLs", and an object with four keys yields its keys.
- A body that `get_json()` cannot read raises inside the `try`, so the answer is 500, not 400.
  A falsy body (`null`, `{}`, `[]`, `""`, `0`, `false`) gets the 400 "missing images" answer.
- A list or string body that contains `"images"` gets past the membership test. The subscript
  after it then raises, and the answer is 500.
- A `date_text` that is not a string (including `null`) is only rejected when the text is
  measured. That happens after all four downloads, and the answer is 500.
- A download whose pixel data is corrupt is reported in two different ways. If the image is
  not RGB, the conversion inside the loop fails, and the answer is the 400 "Failed to download
  image i". If the image is RGB, nothing in the loop reads its pixels. The loop requests every
  URL, the resize at app.py:74 fails, and the catch-all answers 500 with Pillow's message
  (`MosaicService.DeferredDecodeFailure`).
- The comment at `app.py:73` says "centre crop", but the code stretches each image with
  `resize`. The model stretches.
- The default caption always says "Vendredi" (Friday), whatever the actual weekday.
- The backing rectangle pads the *measured size* placed at the draw point. The inked glyphs
  sit offset by the box's own `(left, top)`. `Layout.InkWithinBackingIff` shows the ink stays
  inside the rectangle exactly when both offsets lie between -10 and 11 pixels. The bound is 11
  because the rectangle paints its far corner and the glyph bitmap does not paint its far edge.

## Model

| member | source | states |
|---|---|---|
| Json.Lookup | app.py:33 | `data['images']` / `data.get(...)` on the dict built from a JSON object: defined exactly when some member has that name, and then it is the value of the last member with that name |
| Json.Keys | app.py:35 | the keys that `len` counts on a dict: each member name exactly once, no duplicates, and nothing that is not a member name |
| Json.KeysOfPrefix | app.py:35-43 | dict iteration order is first-occurrence order: the keys of any prefix of the members are a prefix of the keys of all of them, so a later duplicate never moves a key |
| Json.Elements | app.py:43 | what `enumerate(image_urls)` walks over: as many items as `len` reports; the items of a list, the characters of a string, the keys of a dict |
| Json.LookupAgreesWithKeys | app.py:30-33 | `'images' in data` and `data['images']` agree on a dict: a lookup succeeds exactly for the keys that iteration yields |
| Imaging.AsRgb | app.py:49-50 | after the conversion, the mode is RGB and the size and picture are unchanged; an image already in RGB is left as it is; a converted image has had its pixels read |
| Imaging.FirstUndecodable | app.py:73-75 | the resize pass in tile order stops at the first image whose pixels are still unread and cannot be read; none is reported exactly when no image is in that state |
| Fetch.Receive | app.py:47-50 | one pass of the loop body succeeds exactly when the header opened and the image is RGB or its pixels can be read; the result is the RGB form of the opened image, with pixels read exactly when they were already or a conversion happened; a failure carries the GET's or the conversion's message |
| Fetch.FetchAll | app.py:42-54 | the loop ends with all images exactly when every pass of the loop body succeeds, and then image k is what the pass for URL k produced and every URL was requested in order; otherwise it stops at the first failing index with that fetch's cause, and only the URLs up to and including it were requested |
| Fetch.FirstFailureWins | app.py:43-54 | whatever the network answers for other URLs, the first failing position i determines the outcome: failure at i, with URLs 0..i requested |
| Digits.Decimal | app.py:54 | `str(n)` is a non-empty digit string with no leading zero, and has one digit exactly when n < 10 |
| Digits.ValueOfDecimal | app.py:54 | reading `str(n)` back as digits gives n |
| Digits.ZeroPad | app.py:38 | a zero-padded strftime field is all digits, at least as wide as requested, and exactly that wide when the number fits |
| Digits.ZeroPadRoundTrip | app.py:38 | reading a zero-padded field back gives the number, whatever the width |
| Clock.DayMonthYear | app.py:38 | `%d/%m/%Y` of a valid date is 10 characters with slashes at positions 2 and 5 |
| Clock.DayMonthYearRoundTrip | app.py:38 | parsing `%d/%m/%Y` gives back the day, month and year of the clock reading |
| Clock.Timestamp | app.py:121 | `%Y%m%d_%H%M%S` of a valid time is 15 characters with `_` at position 8 |
| Clock.TimestampRoundTrip | app.py:121 | parsing `%Y%m%d_%H%M%S` gives back the whole clock reading |
| Clock.ParseDayMonthYearFields | app.py:38 | any day, month and year digit fields of widths 2, 2 and 4 joined by `/` parse back to their values |
| Clock.ParseTimestampFields | app.py:121 | any digit fields of widths 4, 2, 2, 2, 2, 2 joined as `YYYYMMDD_HHMMSS` parse back to their values |
| Layout.Place | app.py:65-72 | `zip(images, positions)`: image k is paired with position k as a tile-size square, and the shorter input bounds the pairing |
| Layout.Owner | app.py:62-75 | the tile a pixel shows after the pastes is one that covers it, and no later paste covers it; a pixel no paste covers keeps the white background |
| Layout.TilesPartitionCanvas | app.py:58-70 | the tile side is 1080 // 2 = 540 and the positions are (0,0), (540,0), (0,540), (540,540); the four 540-pixel tiles lie inside the 1080 canvas; each canvas pixel is covered by exactly one of them, the one of its quadrant in reading order; so the tiles are pairwise disjoint and their union is the canvas |
| Layout.OwnerIsQuadrant | app.py:65-75 | every canvas pixel shows the input image whose index is its quadrant (top-left 0, top-right 1, bottom-left 2, bottom-right 3); no pixel off the canvas is covered |
| Layout.LayoutCaption | app.py:95-103 | the caption is horizontally centred to within one pixel: the right margin minus the left margin is (1080 − w) mod 2; the measured box ends 30 px above the bottom; the rectangle surrounds it with 10 px on every side; its bottom edge is at 1060 whatever the text height |
| Layout.InkWithinBackingIff | app.py:91-106 | every pixel the glyph bitmap covers (the measured size at the draw point shifted by the box's offset, far edges excluded) lies on the backing rectangle (both corners included) exactly when the text is empty or both offsets lie between -10 and 11 px |
| Layout.Compose | app.py:58-106 | the composed picture carries the caption it was given and, with four images, four tiles |
| Layout.BackgroundFullyCovered | app.py:62-75 | no canvas pixel still shows the white background; outside the caption rectangle, each pixel shows the input image of its quadrant |
| MosaicService.Admit | app.py:27-38 | the checks before the loop either admit exactly 4 URLs or refuse with status 400 or 500; `not data` is Python truthiness of the parsed value, so a number that parsed to zero is falsy and a NaN or infinity is truthy |
| MosaicService.Generate | app.py:26-126 | the status is 200, 400 or 500; it is 200 exactly when the body is a JPEG attachment; every 400 carries an error message; a mosaic comes only after 4 requests and has 4 tiles; at most 4 URLs are ever requested |
| MosaicService.Health | app.py:10-13 | status 200 and the dict given to `jsonify`, whose keys are exactly `status` and `service`, mapping to "ok" and "mosaic-generator" (`jsonify` chooses the order on output) |
| MosaicService.FailureMessageNamesImage | app.py:54 | a download-failure message starts with "Failed to download image " and reads back as the 1-based number of the failing image, whatever the cause text contains |
| MosaicService.DefaultCaptionShowsDate | app.py:38 | the default caption is 19 characters, "Vendredi " followed by a DD/MM/YYYY date that parses back to the clock's date |
| MosaicService.FilenameShowsTimestamp | app.py:121 | the download name is `mosaic_` + 15-character timestamp + `.jpg`, and the timestamp parses back to the clock reading |
| MosaicService.MissingImagesIff | app.py:30-31 | the "Missing 'images' array in request" 400 is given exactly for a readable body that is falsy or does not contain `images`, and then nothing is downloaded |
| MosaicService.WrongCountIff | app.py:35-36 | the "Exactly 4 image URLs required" 400 is given exactly when the body is an object whose `images` has a length other than 4, and then nothing is downloaded |
| MosaicService.DownloadsFollowValidation | app.py:30-45 | any download at all implies both checks passed (the `images` member exists and has length 4), and the URLs requested are a prefix of its entries in order |
| MosaicService.FirstFailureReported | app.py:43-54 | if image i is the first that cannot be fetched, the answer is 400 "Failed to download image i+1: cause", URLs after i are never requested, and there is no mosaic |
| MosaicService.SuccessIff | app.py:30-122 | the answer is 200 exactly when the checks pass, every URL's download and conversion succeed, every image's pixels can be read, and the caption is a string |
| MosaicService.NumberBodies | app.py:27-31 | a number body that parsed to zero gets the "missing images" 400; any other number, a NaN or an infinity gets the 500 from `'images' in data` raising |
| MosaicService.DeferredDecodeFailure | app.py:43-126 | when every URL yields an RGB header but one image's pixels cannot be read, all URLs are requested and the answer is a 500 carrying the message for the first such image, not a 400 naming it |
| MosaicService.MosaicContents | app.py:38-121 | in a mosaic, tile k is the RGB form of image k at position k as a 540 square; the caption is `date_text` verbatim when supplied, else the dated default; the layout follows the caption's measured box; the name carries the second clock reading |

## Left out

- HTTP transport, Flask routing, `send_file` headers, the `/` documentation page and the port setting (app.py:1-8, 117-122, 128-171): framework plumbing. A 200 answer is modelled as an attachment holding the composed picture and its file name.
- The network (app.py:45-47): `requests.get`, `raise_for_status`, the 10-second timeout and the header read of `Image.open` are the input function `net`. Within one request, the same URL is assumed to get the same answer.
- Image decoding, the pixel values of the RGB conversion, Lanczos resampling, pixel pasting and JPEG encoding at quality 95 (app.py:47-50, 74-75, 110-112): these are Pillow internals. An image is its size, its mode, whether its pixels have been read, and the bytes it came from; whether those pixels can be read is the input function `decode`.
- The font fallback chain and text measurement (app.py:82-93): the measured box is the input function `measure`. Glyph rasterisation (app.py:106) is not modelled either.
- The alpha of the rectangle fill `(0, 0, 0, 180)` on an RGB canvas (app.py:102): its rendering is defined by Pillow. The rectangle is modelled as covering its pixels.
- The clock (app.py:38, 121): both readings are parameters.
- `print` logging (app.py:41, 52, 57, 78, 109, 114, 125).
- The text of Python's own `TypeError` messages in 500 answers: these are tags (`Fault`). Other exceptions that Pillow or `get_json` might raise during composition or encoding are not modelled, apart from the `get_json` failure (`Unreadable`), a non-string caption, and pixel data that cannot be read at the resize (`decode`, answered with 500 by `MosaicService.Render`).
- Clock.DayMonthYear: `%Y` is modelled as zero-padded to four digits. For years before 1000 the platform's `strftime` may print fewer digits.
- Clock.Timestamp: the same four-digit `%Y` as in `Clock.DayMonthYear`, for the same reason.
- A float's exact binary value is not modelled: a number is the decimal value `json` produced, so the rounding from literal to float happens before the model sees the body.
- JSON strings are sequences of Unicode scalar values. Lone surrogates that Python strings can hold are not represented.
