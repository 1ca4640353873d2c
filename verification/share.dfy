/** The result-distribution side of the page: outbound share links built
    from the page address, copying the page link to the clipboard with a
    legacy fallback, and native (link or image) sharing gated on what the
    platform supports. Every platform answer is an input. */
module Share {
  import opened Js

  const SiteName := "LastSnap"
  const Tagline := "LastSnap \U{2013} capture the final frame"

  /** The page address: `window.location.href`, or "" when reading it
      throws (None). */
  function PageUrl(href: Option<string>): (u: string)
    ensures href.Some? ==> u == href.value
    ensures href.None? ==> u == ""
  {
    match href
    case Some(h) => h
    case None => ""
  }

  // ---------------------------------------------------------------------
  // Outbound share links
  // ---------------------------------------------------------------------

  datatype Target = X | Facebook | WhatsApp | Telegram | LinkedIn | Email

  datatype Links = Links(
    x: string, facebook: string, whatsapp: string,
    telegram: string, linkedin: string, email: string)

  function LinkFor(l: Links, t: Target): string {
    match t
    case X => l.x
    case Facebook => l.facebook
    case WhatsApp => l.whatsapp
    case Telegram => l.telegram
    case LinkedIn => l.linkedin
    case Email => l.email
  }

  /** The fixed text in front of the encoded page address in each link. */
  function Prefix(t: Target, encode: string -> string): string {
    match t
    case X => "https://twitter.com/intent/tweet?url="
    case Facebook => "https://www.facebook.com/sharer/sharer.php?u="
    case WhatsApp => "https://wa.me/?text="
    case Telegram => "https://t.me/share/url?url="
    case LinkedIn => "https://www.linkedin.com/sharing/share-offsite/?url="
    case Email => "mailto:?subject=" + encode(SiteName) + "&body="
  }

  /** The fixed text after the encoded page address in each link. */
  function Suffix(t: Target, encode: string -> string): string {
    match t
    case X => "&text=" + encode(Tagline)
    case Telegram => "&text=" + encode(Tagline)
    case _ => ""
  }

  /** The six outbound links for `pageUrl`; `encode` is
      `encodeURIComponent`, left uninterpreted. `pageUrl || ''` is the
      identity on strings, so the address is encoded as it is. The page
      renders only the WhatsApp, X and Facebook links. */
  function ShareLinks(pageUrl: string, encode: string -> string): (l: Links)
    ensures forall t: Target ::
      LinkFor(l, t) == Prefix(t, encode) + encode(pageUrl) + Suffix(t, encode)
  {
    var u := encode(pageUrl);
    var text := encode(Tagline);
    Links(
      x := "https://twitter.com/intent/tweet?url=" + u + "&text=" + text,
      facebook := "https://www.facebook.com/sharer/sharer.php?u=" + u,
      whatsapp := "https://wa.me/?text=" + u,
      telegram := "https://t.me/share/url?url=" + u + "&text=" + text,
      linkedin := "https://www.linkedin.com/sharing/share-offsite/?url=" + u,
      email := "mailto:?subject=" + encode(SiteName) + "&body=" + u)
  }

  /** The text between `prefix` and `suffix` in `link`, if `link` has
      that shape. */
  ghost function Between(link: string, prefix: string, suffix: string): (r: Option<string>)
    ensures r.Some? ==> prefix + r.value + suffix == link
  {
    if |prefix| + |suffix| <= |link|
       && link[..|prefix|] == prefix
       && link[|link| - |suffix|..] == suffix
    then
      var mid := link[|prefix|..|link| - |suffix|];
      assert prefix + mid + suffix == link by {
        assert link == link[..|prefix|] + mid + link[|link| - |suffix|..];
      }
      Some(mid)
    else None
  }

  /** The encoded page address a share link carries. */
  ghost function EncodedAddressIn(link: string, t: Target, encode: string -> string): Option<string> {
    Between(link, Prefix(t, encode), Suffix(t, encode))
  }

  lemma BetweenRoundTrip(prefix: string, mid: string, suffix: string)
    ensures Between(prefix + mid + suffix, prefix, suffix) == Some(mid)
  {
    var link := prefix + mid + suffix;
    assert link[..|prefix|] == prefix;
    assert link[|link| - |suffix|..] == suffix;
    assert link[|prefix|..|link| - |suffix|] == mid;
  }

  /** Every share link gives back exactly the encoded page address. */
  lemma ShareLinksCarryAddress(pageUrl: string, encode: string -> string, t: Target)
    ensures EncodedAddressIn(LinkFor(ShareLinks(pageUrl, encode), t), t, encode)
            == Some(encode(pageUrl))
  {
    BetweenRoundTrip(Prefix(t, encode), encode(pageUrl), Suffix(t, encode));
  }

  /** With an injective encoder, the links determine the page address. */
  lemma ShareLinksInjective(a: string, b: string, encode: string -> string)
    requires forall p, q :: encode(p) == encode(q) ==> p == q
    requires ShareLinks(a, encode) == ShareLinks(b, encode)
    ensures a == b
  {
    ShareLinksCarryAddress(a, encode, WhatsApp);
    ShareLinksCarryAddress(b, encode, WhatsApp);
  }

  /** An empty page address contributes nothing to any link, given that
      the encoder maps "" to "" as `encodeURIComponent` does. */
  lemma EmptyPageUrlLinks(encode: string -> string, t: Target)
    requires encode("") == ""
    ensures LinkFor(ShareLinks("", encode), t) == Prefix(t, encode) + Suffix(t, encode)
  {
    assert Prefix(t, encode) + "" == Prefix(t, encode);
  }

  // ---------------------------------------------------------------------
  // Copying the page link
  // ---------------------------------------------------------------------

  /** What the legacy `document.execCommand('copy')` path does: it
      returns a boolean, or something on the way throws. */
  datatype Fallback = Returned(ok: bool) | Threw

  datatype Technique = ClipboardApi | ExecCommand

  /** The result of a copy and the techniques tried, in order. */
  datatype CopyAttempt = CopyAttempt(ok: bool, tried: seq<Technique>)

  /** `copyToClipboard(text)`: nothing for empty text; otherwise the
      Clipboard API (`clipboardWrites` says whether `writeText` resolved),
      then the off-screen textarea fallback when that rejected. */
  function CopyToClipboard(text: string, clipboardWrites: bool, fallback: Fallback): (c: CopyAttempt)
    ensures c.ok <==> text != "" && (clipboardWrites || fallback == Returned(true))
    ensures c.tried == [] <==> text == ""
    ensures text != "" ==> c.tried[0] == ClipboardApi
    ensures ExecCommand in c.tried <==> text != "" && !clipboardWrites
  {
    if text == "" then CopyAttempt(false, [])
    else if clipboardWrites then CopyAttempt(true, [ClipboardApi])
    else
      match fallback
      case Returned(ok) => CopyAttempt(ok, [ClipboardApi, ExecCommand])
      case Threw => CopyAttempt(false, [ClipboardApi, ExecCommand])
  }

  const CopiedText := "Copied!"
  const CopyFailedText := "Copy failed"

  /** The status line `onCopyLink` shows for a copy result. */
  function CopyStatusText(ok: bool): (m: string)
    ensures m == CopiedText <==> ok
    ensures m == CopyFailedText <==> !ok
  {
    if ok then CopiedText else CopyFailedText
  }

  /** `onCopyLink`: copy the page address and report the outcome. */
  function OnCopyLink(pageUrl: string, clipboardWrites: bool, fallback: Fallback): (m: string)
    ensures m == CopiedText <==> pageUrl != "" && (clipboardWrites || fallback == Returned(true))
    ensures m == CopiedText || m == CopyFailedText
  {
    CopyStatusText(CopyToClipboard(pageUrl, clipboardWrites, fallback).ok)
  }

  // ---------------------------------------------------------------------
  // Native sharing
  // ---------------------------------------------------------------------

  datatype SharedFile = SharedFile(name: string, mime: string)

  /** The argument passed to `navigator.share`. Whether the share promise
      resolves or rejects is never observed: both handlers swallow it. */
  datatype ShareData =
    | LinkShare(title: string, text: string, url: string)
    | FileShare(title: string, text: string, file: SharedFile)

  /** `file?.name` is truthy. */
  predicate Named(fileName: Option<string>) {
    fileName.Some? && fileName.value != ""
  }

  const ImageFileName := "last-snap.jpg"
  const DefaultImageType := "image/jpeg"

  /** `onNativeShare`: the share request issued, if any. */
  function NativeShare(canNativeShare: bool, fileName: Option<string>, pageUrl: string): (r: Option<ShareData>)
    ensures r.Some? <==> canNativeShare
    ensures r.Some? ==> r.value.LinkShare? && r.value.title == SiteName && r.value.url == pageUrl
    ensures r.Some? && Named(fileName) ==>
      r.value.text == "Final frame extracted from " + fileName.value
    ensures r.Some? && !Named(fileName) ==>
      r.value.text == "Extract the last frame from your video"
  {
    if !canNativeShare then None
    else
      var text := if Named(fileName) then "Final frame extracted from " + fileName.value
                  else "Extract the last frame from your video";
      Some(LinkShare(SiteName, text, pageUrl))
  }

  /** What `fetch(imageSrc)` and `.blob()` give: a blob of some MIME type,
      or a failure (swallowed). */
  datatype Fetched = Blob(mime: string) | FetchFailed

  /** `navigator.canShare`: absent, or its answer for the image file. */
  datatype CanShareProbe = NoCanShare | Answers(ok: bool)

  /** `imageSrc` is truthy. */
  predicate HasImage(imageSrc: Option<string>) {
    imageSrc.Some? && imageSrc.value != ""
  }

  /** `onShareImage`: share the result image as a file when the platform
      says it can share that file, otherwise fall back to sharing the link. */
  function ShareImage(canNativeShare: bool, imageSrc: Option<string>, fileName: Option<string>,
                      pageUrl: string, fetched: Fetched, canShare: CanShareProbe): (r: Option<ShareData>)
    ensures r.Some? ==> canNativeShare && HasImage(imageSrc) && fetched.Blob?
    ensures (r.Some? && r.value.FileShare?) <==>
      canNativeShare && HasImage(imageSrc) && fetched.Blob? && canShare == Answers(true)
    ensures r.Some? && r.value.FileShare? ==>
      r.value.title == SiteName
      && r.value.file.name == ImageFileName
      && r.value.file.mime == (if fetched.mime != "" then fetched.mime else DefaultImageType)
    ensures r.Some? && r.value.FileShare? && Named(fileName) ==>
      r.value.text == "Final frame image from " + fileName.value
    ensures r.Some? && r.value.FileShare? && !Named(fileName) ==>
      r.value.text == "Final frame image"
    ensures canNativeShare && HasImage(imageSrc) && fetched.Blob? && canShare != Answers(true) ==>
      r == NativeShare(true, fileName, pageUrl)
  {
    if !canNativeShare || !HasImage(imageSrc) then None
    else
      match fetched
      case FetchFailed => None
      case Blob(mime) =>
        var file := SharedFile(ImageFileName, if mime != "" then mime else DefaultImageType);
        if canShare == Answers(true) then
          var text := if Named(fileName) then "Final frame image from " + fileName.value
                      else "Final frame image";
          Some(FileShare(SiteName, text, file))
        else NativeShare(canNativeShare, fileName, pageUrl)
  }

  /** The "More" button's handler: it shares the image while there is
      one and the link otherwise. The button is rendered only inside the
      share panel, which itself needs an image, and only when native
      share exists; so on the page it always takes the image branch. */
  function OnMoreClicked(canNativeShare: bool, imageSrc: Option<string>, fileName: Option<string>,
                         pageUrl: string, fetched: Fetched, canShare: CanShareProbe): (r: Option<ShareData>)
    ensures !canNativeShare ==> r.None?
    ensures !HasImage(imageSrc) ==> r == NativeShare(canNativeShare, fileName, pageUrl)
    ensures HasImage(imageSrc) ==> r == ShareImage(canNativeShare, imageSrc, fileName, pageUrl, fetched, canShare)
    ensures r.Some? && r.value.LinkShare? ==> r.value.url == pageUrl
  {
    if HasImage(imageSrc) then ShareImage(canNativeShare, imageSrc, fileName, pageUrl, fetched, canShare)
    else NativeShare(canNativeShare, fileName, pageUrl)
  }
}
