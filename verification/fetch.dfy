/** The download loop: the URLs are fetched one after the other in input order, and the first
    failure ends the request. The network is an input: `net(url)` is what the GET, the status
    check and `Image.open` (which reads only the header) produce for `url` during this request.
    The loop body then converts a non-RGB image, which reads its pixels; an RGB image's pixels
    stay unread until the resize, after the loop. */
module Fetch {
  import opened Options
  import opened Json
  import opened Imaging

  /** An image, or the text of the exception raised on the way to it. */
  datatype FetchResult = Fetched(image: Image) | FetchFailed(cause: string)

  /** The rest of the loop body once `Image.open` has answered (`header`): an image that is not RGB is
      converted, and reading its pixels may raise; an RGB image is kept as opened. */
  function Receive(header: FetchResult, decode: Image -> Option<string>): (r: FetchResult)
    ensures r.Fetched? <==> header.Fetched? && (header.image.mode == "RGB" || decode(header.image).None?)
    ensures r.Fetched? ==> r.image == AsRgb(header.image)
    ensures r.Fetched? ==> (r.image.loaded <==> header.image.loaded || header.image.mode != "RGB")
    ensures r.FetchFailed? ==>
      r.cause == if header.FetchFailed? then header.cause else decode(header.image).value
  {
    match header
    case FetchFailed(_) => header
    case Fetched(img) =>
      if img.mode == "RGB" then header
      else
        match decode(img)
        case Some(e) => FetchFailed(e)
        case None => Fetched(AsRgb(img))
  }

  /** One pass of the loop body for a URL: the GET and `Image.open`, then `Receive`. */
  function Attempt(net: Json -> FetchResult, decode: Image -> Option<string>): Json -> FetchResult {
    url => Receive(net(url), decode)
  }

  /** The outcome of the loop, with the URLs it requested, in the order it requested them. */
  datatype FetchRun =
    | AllFetched(images: seq<Image>, requested: seq<Json>)
    | FailedAt(index: nat, cause: string, requested: seq<Json>)

  /** `index` is the first position whose pass of the loop body fails. */
  predicate IsFirstFailure(urls: seq<Json>, pass: Json -> FetchResult, index: nat) {
    && index < |urls|
    && pass(urls[index]).FetchFailed?
    && forall k :: 0 <= k < index ==> pass(urls[k]).Fetched?
  }

  predicate AllSucceed(urls: seq<Json>, pass: Json -> FetchResult) {
    forall k :: 0 <= k < |urls| ==> pass(urls[k]).Fetched?
  }

  /** `images[k]` is what the loop body produced for URL k, for every k. */
  predicate InInputOrder(urls: seq<Json>, pass: Json -> FetchResult, images: seq<Image>) {
    && |images| == |urls|
    && forall k :: 0 <= k < |urls| ==> pass(urls[k]).Fetched? && images[k] == pass(urls[k]).image
  }

  /** The loop over the URLs; `pass` is one whole pass of the loop body, as `Attempt` builds it. */
  function FetchAll(urls: seq<Json>, pass: Json -> FetchResult): (r: FetchRun)
    ensures r.AllFetched? <==> AllSucceed(urls, pass)
    ensures r.AllFetched? ==> r.requested == urls && InInputOrder(urls, pass, r.images)
    ensures r.FailedAt? ==>
      && IsFirstFailure(urls, pass, r.index)
      && r.cause == pass(urls[r.index]).cause
      && r.requested == urls[..r.index + 1]
  {
    if urls == [] then AllFetched([], [])
    else if pass(urls[0]).FetchFailed? then FailedAt(0, pass(urls[0]).cause, [urls[0]])
    else
      var rest := FetchAll(urls[1..], pass);
      if rest.AllFetched? then AllFetched([pass(urls[0]).image] + rest.images, [urls[0]] + rest.requested)
      else FailedAt(rest.index + 1, rest.cause, [urls[0]] + rest.requested)
  }

  /** Whatever the network does, the loop stops at the first failure, and only there. */
  lemma FirstFailureWins(urls: seq<Json>, pass: Json -> FetchResult, i: nat)
    requires IsFirstFailure(urls, pass, i)
    ensures FetchAll(urls, pass) == FailedAt(i, pass(urls[i]).cause, urls[..i + 1])
  {
  }

}
