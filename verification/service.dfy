/** The `/generate-mosaic` handler and the `/health` endpoint, as one pure function of
    everything the handler reads from outside: the parsed body, the network, the pixel decoder,
    the font's text measurement and the two clock readings. It returns the HTTP response together with the
    URLs it requested, so that "nothing was downloaded" can be stated. */
module MosaicService {
  import opened Options
  import opened Digits
  import opened Clock
  import opened Json
  import opened Imaging
  import opened Fetch
  import opened Layout

  const MissingImages: string := "Missing 'images' array in request"
  const WrongCount: string := "Exactly 4 image URLs required"
  const FailurePrefix: string := "Failed to download image "
  const DefaultPrefix: string := "Vendredi "
  const ImageCount: nat := 4

  /** What `request.get_json()` gave: a value (`JNull` for `None`), or the text of the exception it raised. */
  datatype RequestBody = Parsed(data: Json) | Unreadable(reason: string)

  /** A `TypeError` raised by Python inside the handler; the catch-all answers 500 with its text,
      which is the interpreter's and is not modelled. */
  datatype Fault =
    | NotIterable       // `'images' in data` where data is a number or `true`
    | NotSubscriptable  // `data['images']` where data is a list or a string
    | NoLength          // `len(images)` where images is null, a boolean or a number
    | CaptionNotText    // measuring a `date_text` that is not a string

  datatype Body =
    | ErrorJson(message: string)                     // {"error": message}
    | FaultJson(fault: Fault)                        // {"error": str(e)}
    | PayloadJson(value: Json)                       // any other value given to `jsonify`
    | Attachment(mosaic: Mosaic, filename: string)   // the JPEG, as a download

  datatype Response = Response(status: nat, body: Body)

  /** The response and the URLs requested, in request order. */
  datatype Handled = Handled(response: Response, requested: seq<Json>)

  /** The result of the checks made before any download. */
  datatype Admission = Admitted(urls: seq<Json>, caption: Json) | Refused(response: Response)

  function DefaultCaption(now: DateTime): string {
    DefaultPrefix + DayMonthYear(now)
  }

  /** `data.get('date_text', default)`: the supplied value, whatever it is, else the dated default. */
  function ChooseCaption(members: seq<(string, Json)>, now: DateTime): Json {
    match Lookup(members, "date_text")
    case Some(v) => v
    case None => JStr(DefaultCaption(now))
  }

  function FailureMessage(i: nat, cause: string): string {
    FailurePrefix + Decimal(i + 1) + ": " + cause
  }

  function Filename(t: DateTime): string {
    "mosaic_" + Timestamp(t) + ".jpg"
  }

  /** The `images` member of a parsed object body, if there is one. */
  function ImagesField(body: RequestBody): Option<Json> {
    if body.Parsed? && body.data.JObj? then Lookup(body.data.members, "images") else None
  }

  /** The body passes both checks and these are the URLs the loop iterates over. */
  ghost predicate AdmitsUrls(body: RequestBody, urls: seq<Json>) {
    && ImagesField(body).Some?
    && Length(ImagesField(body).value) == Some(ImageCount)
    && urls == Elements(ImagesField(body).value)
  }

  /** The checks before the download loop, in the handler's order. */
  function Admit(data: Json, now: DateTime): (a: Admission)
    ensures a.Admitted? ==> |a.urls| == ImageCount
    ensures a.Refused? ==> a.response.status in {400, 500}
  {
    if !Truthy(data) then Refused(Response(400, ErrorJson(MissingImages)))
    else
      match Contains(data, "images")
      case None => Refused(Response(500, FaultJson(NotIterable)))
      case Some(false) => Refused(Response(400, ErrorJson(MissingImages)))
      case Some(true) =>
        if !data.JObj? then Refused(Response(500, FaultJson(NotSubscriptable)))
        else
          var images := Lookup(data.members, "images").value;
          match Length(images)
          case None => Refused(Response(500, FaultJson(NoLength)))
          case Some(n) =>
            if n != ImageCount then Refused(Response(400, ErrorJson(WrongCount)))
            else Admitted(Elements(images), ChooseCaption(data.members, now))
  }

  /** Composition, measurement and encoding, reached only once every image is in hand.
      The resize reads any pixels still unread, and a failure there reaches the catch-all;
      then the caption is measured. */
  function Render(images: seq<Image>, caption: Json, decode: Image -> Option<string>,
                  measure: string -> TextBox, saved: DateTime): Response
  {
    match FirstUndecodable(images, decode)
    case Some(k) => Response(500, ErrorJson(decode(images[k]).value))
    case None =>
      match caption
      case JStr(text) => Response(200, Attachment(Compose(images, text, measure(text)), Filename(saved)))
      case _ => Response(500, FaultJson(CaptionNotText))
  }

  /** `generate_mosaic`. `net` answers each GET and `Image.open`; `decode` is the outcome of
      reading an image's pixel data; `measure` is the font's `textbbox`; `now` is the clock read
      for the default caption and `saved` the one read for the file name. */
  function Generate(body: RequestBody, net: Json -> FetchResult, decode: Image -> Option<string>,
                    measure: string -> TextBox, now: DateTime, saved: DateTime): (h: Handled)
    ensures h.response.status in {200, 400, 500}
    ensures h.response.status == 200 <==> h.response.body.Attachment?
    ensures h.response.status == 400 ==> h.response.body.ErrorJson?
    ensures h.response.body.Attachment? ==>
              |h.requested| == ImageCount && |h.response.body.mosaic.tiles| == ImageCount
    ensures |h.requested| <= ImageCount
  {
    match body
    case Unreadable(reason) => Handled(Response(500, ErrorJson(reason)), [])
    case Parsed(data) =>
      match Admit(data, now)
      case Refused(response) => Handled(response, [])
      case Admitted(urls, caption) =>
        match FetchAll(urls, Attempt(net, decode))
        case FailedAt(i, cause, requested) =>
          Handled(Response(400, ErrorJson(FailureMessage(i, cause))), requested)
        case AllFetched(images, requested) =>
          Handled(Render(images, caption, decode, measure, saved), requested)
  }

  /** `health`. The payload is the dict handed to `jsonify`, which orders the keys when it
      writes them out, so only the key set is stated. */
  function Health(): (r: Response)
    ensures r.status == 200 && r.body.PayloadJson? && r.body.value.JObj?
    ensures forall key :: key in Keys(r.body.value.members) <==> key == "status" || key == "service"
    ensures Lookup(r.body.value.members, "status") == Some(JStr("ok"))
    ensures Lookup(r.body.value.members, "service") == Some(JStr("mosaic-generator"))
  {
    Response(200, PayloadJson(JObj([("status", JStr("ok")), ("service", JStr("mosaic-generator"))])))
  }

  // ---------------------------------------------------------------------------------------
  // Reading the messages back

  /** The 1-based image number a download-failure message names, read from its leading digits. */
  function ImageNumberIn(message: string): Option<nat> {
    if FailurePrefix <= message then
      var d := LeadingDigits(message[|FailurePrefix|..]);
      if d == [] then None else Some(Value(d))
    else None
  }

  /** A failure message names the 1-based number of the failing image, whatever the cause text says. */
  lemma FailureMessageNamesImage(i: nat, cause: string)
    ensures FailurePrefix <= FailureMessage(i, cause)
    ensures ImageNumberIn(FailureMessage(i, cause)) == Some(i + 1)
  {
    var m := FailureMessage(i, cause);
    var d := Decimal(i + 1);
    assert m[|FailurePrefix|..] == d + (": " + cause);
    LeadingDigitsOfNumeral(d, ": " + cause);
    ValueOfDecimal(i + 1);
  }

  /** The default caption is "Vendredi " followed by the date as DD/MM/YYYY, which reads back as the clock's date. */
  lemma DefaultCaptionShowsDate(now: DateTime)
    requires Valid(now)
    ensures var c := DefaultCaption(now);
            && |c| == 19
            && DefaultPrefix <= c
            && ParseDayMonthYear(c[|DefaultPrefix|..]) == Some((now.day, now.month, now.year))
  {
    var c := DefaultCaption(now);
    assert c[|DefaultPrefix|..] == DayMonthYear(now);
    DayMonthYearRoundTrip(now);
  }

  /** The download name is `mosaic_<YYYYMMDD>_<HHMMSS>.jpg`, and its timestamp reads back as the clock reading. */
  lemma FilenameShowsTimestamp(t: DateTime)
    requires Valid(t)
    ensures var f := Filename(t);
            && |f| == 26
            && "mosaic_" <= f
            && f[22..] == ".jpg"
            && ParseTimestamp(f[7..22]) == Some(t)
  {
    var f := Filename(t);
    assert f[7..22] == Timestamp(t);
    TimestampRoundTrip(t);
  }

  // ---------------------------------------------------------------------------------------
  // Validation happens before any download

  /** The "missing images" answer is given exactly for a falsy body or one without `images`,
      and then nothing is downloaded. */
  lemma MissingImagesIff(body: RequestBody, net: Json -> FetchResult, decode: Image -> Option<string>, measure: string -> TextBox,
                         now: DateTime, saved: DateTime)
    ensures var h := Generate(body, net, decode, measure, now, saved);
            h.response == Response(400, ErrorJson(MissingImages))
            <==> body.Parsed? && (!Truthy(body.data) || Contains(body.data, "images") == Some(false))
    ensures var h := Generate(body, net, decode, measure, now, saved);
            h.response == Response(400, ErrorJson(MissingImages)) ==> h.requested == []
  {
    var h := Generate(body, net, decode, measure, now, saved);
    if body.Parsed? && Admit(body.data, now).Admitted? {
      var a := Admit(body.data, now);
      match FetchAll(a.urls, Attempt(net, decode))
      case FailedAt(i, cause, _) =>
        assert FailureMessage(i, cause)[0] == 'F';
        assert MissingImages[0] == 'M';
      case AllFetched(_, _) =>
    }
  }

  /** The "exactly 4" answer is given exactly when the body is an object whose `images` has
      a length other than 4, and then nothing is downloaded. */
  lemma WrongCountIff(body: RequestBody, net: Json -> FetchResult, decode: Image -> Option<string>, measure: string -> TextBox,
                      now: DateTime, saved: DateTime)
    ensures var h := Generate(body, net, decode, measure, now, saved);
            h.response == Response(400, ErrorJson(WrongCount))
            <==> ImagesField(body).Some? && Length(ImagesField(body).value).Some?
                 && Length(ImagesField(body).value).value != ImageCount
    ensures var h := Generate(body, net, decode, measure, now, saved);
            h.response == Response(400, ErrorJson(WrongCount)) ==> h.requested == []
  {
    var h := Generate(body, net, decode, measure, now, saved);
    if body.Parsed? && Admit(body.data, now).Admitted? {
      var a := Admit(body.data, now);
      match FetchAll(a.urls, Attempt(net, decode))
      case FailedAt(i, cause, _) =>
        assert FailureMessage(i, cause)[0] == 'F';
        assert WrongCount[0] == 'E';
      case AllFetched(_, _) =>
    }
    if body.Parsed? && body.data.JObj? && Lookup(body.data.members, "images").Some? {
      assert Truthy(body.data);
    }
  }

  /** Any download at all means both checks passed, and the URLs requested are a prefix of
      the `images` entries in order. */
  lemma DownloadsFollowValidation(body: RequestBody, net: Json -> FetchResult, decode: Image -> Option<string>, measure: string -> TextBox,
                                  now: DateTime, saved: DateTime)
    ensures var h := Generate(body, net, decode, measure, now, saved);
            h.requested != [] ==>
              && ImagesField(body).Some?
              && Length(ImagesField(body).value) == Some(ImageCount)
              && h.requested <= Elements(ImagesField(body).value)
  {
  }

  // ---------------------------------------------------------------------------------------
  // The download loop

  /** If image i (0-based) is the first that cannot be fetched, the answer is 400 naming
      image i + 1, the URLs after it are never requested, and no mosaic is produced. */
  lemma FirstFailureReported(body: RequestBody, net: Json -> FetchResult, decode: Image -> Option<string>, measure: string -> TextBox,
                             now: DateTime, saved: DateTime, urls: seq<Json>, i: nat)
    requires AdmitsUrls(body, urls)
    requires IsFirstFailure(urls, Attempt(net, decode), i)
    ensures Generate(body, net, decode, measure, now, saved)
            == Handled(Response(400, ErrorJson(FailureMessage(i, Attempt(net, decode)(urls[i]).cause))),
                       urls[..i + 1])
  {
  }

  /** The answer is a mosaic exactly when the checks pass, every pass of the loop body succeeds,
      every image's pixels can be read, and the caption is a string. */
  lemma SuccessIff(body: RequestBody, net: Json -> FetchResult, decode: Image -> Option<string>, measure: string -> TextBox,
                   now: DateTime, saved: DateTime)
    ensures Generate(body, net, decode, measure, now, saved).response.status == 200
            <==> && ImagesField(body).Some?
                 && Length(ImagesField(body).value) == Some(ImageCount)
                 && (forall url :: url in Elements(ImagesField(body).value) ==>
                       Attempt(net, decode)(url).Fetched? && !Undecodable(Attempt(net, decode)(url).image, decode))
                 && ChooseCaption(body.data.members, now).JStr?
  {
    if ImagesField(body).Some? && Length(ImagesField(body).value) == Some(ImageCount) {
      assert Truthy(body.data);
      var urls := Elements(ImagesField(body).value);
      var pass := Attempt(net, decode);
      assert Admit(body.data, now) == Admitted(urls, ChooseCaption(body.data.members, now));
      var r := FetchAll(urls, pass);
      if r.AllFetched? {
        assert forall url :: url in urls <==> exists k :: 0 <= k < |urls| && urls[k] == url;
      } else {
        assert !pass(urls[r.index]).Fetched?;
      }
    } else if body.Parsed? {
      assert Admit(body.data, now).Refused?;
    }
  }

  /** In a mosaic, image k of the request is pasted at the k-th position (top-left, top-right,
      bottom-left, bottom-right), stretched to a tile; the caption is `date_text` verbatim when
      it is supplied and the dated default otherwise; the name carries the second clock reading. */
  lemma MosaicContents(body: RequestBody, net: Json -> FetchResult, decode: Image -> Option<string>, measure: string -> TextBox,
                       now: DateTime, saved: DateTime, urls: seq<Json>)
    requires AdmitsUrls(body, urls)
    ensures var r := Generate(body, net, decode, measure, now, saved).response;
            var b := r.body;
            r.status == 200 ==>
            && (forall k :: 0 <= k < ImageCount ==>
                  net(urls[k]).Fetched?
                  && b.mosaic.tiles[k] == Placement(AsRgb(net(urls[k]).image), Positions[k], TileSize))
            && (match Lookup(body.data.members, "date_text")
                case Some(v) => v == JStr(b.mosaic.caption)
                case None => b.mosaic.caption == DefaultCaption(now))
            && b.mosaic.layout == LayoutCaption(measure(b.mosaic.caption))
            && b.filename == Filename(saved)
  {
  }

  /** Pillow reads an RGB image's pixels only at the resize, after the loop. So when every
      header opens but the pixels of an RGB image cannot be read, all the URLs have been
      requested and the answer is a 500 carrying Pillow's message, not a 400 naming the image. */
  lemma DeferredDecodeFailure(body: RequestBody, net: Json -> FetchResult, decode: Image -> Option<string>,
                              measure: string -> TextBox, now: DateTime, saved: DateTime,
                              urls: seq<Json>, k: nat)
    requires AdmitsUrls(body, urls)
    requires forall j :: 0 <= j < |urls| ==> net(urls[j]).Fetched? && net(urls[j]).image.mode == "RGB"
    requires k < |urls| && Undecodable(net(urls[k]).image, decode)
    ensures var h := Generate(body, net, decode, measure, now, saved);
            && h.requested == urls
            && h.response.status == 500
            && exists j :: 0 <= j <= k && Undecodable(net(urls[j]).image, decode)
                           && h.response.body == ErrorJson(decode(net(urls[j]).image).value)
  {
  }

  /** A number body: zero (including a literal that `json` rounds to zero) is falsy and gets the
      "missing images" 400; any other number, a NaN or an infinity is truthy, and `'images' in`
      it raises, so the catch-all answers 500. */
  lemma NumberBodies(m: int, e: int, literal: string, net: Json -> FetchResult,
                     decode: Image -> Option<string>, measure: string -> TextBox,
                     now: DateTime, saved: DateTime)
    ensures Generate(Parsed(JNum(m, e)), net, decode, measure, now, saved).response
            == if m == 0 then Response(400, ErrorJson(MissingImages)) else Response(500, FaultJson(NotIterable))
    ensures Generate(Parsed(JNonFinite(literal)), net, decode, measure, now, saved).response
            == Response(500, FaultJson(NotIterable))
  {
  }

}
