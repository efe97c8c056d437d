/** What the interface sends and renders: the JSON body of an upload, and the
    CDN address each displayed icon's image is loaded from. */
module Requests {
  import opened Wrappers
  import Strings
  import IconName
  import IconList

  /** The body of the upload request, `{image, name, type}`; `kind` is the
      `type` property. */
  datatype UploadRequest = UploadRequest(image: string, name: string, kind: string)

  /** The remote service's code for a static image, the only kind this
      interface ever uploads. */
  const StaticImageKind := "1"

  /** The upload body for a file whose contents were read as the data URI
      `dataUri`: the image verbatim, the name derived from the file name, and
      the fixed kind. */
  function UploadRequestFor(dataUri: string, fileName: string): (r: UploadRequest)
    ensures r.image == dataUri
    ensures r.kind == StaticImageKind
    ensures r.name == IconName.DeriveIconName(fileName)
    ensures '.' !in r.name && |r.name| <= |fileName|
  {
    UploadRequest(dataUri, IconName.DeriveIconName(fileName), StaticImageKind)
  }

  /** The text a template literal produces for a value that may be
      `undefined`. */
  function Render(v: Option<string>): (r: string)
    ensures v.Some? ==> r == v.value
    ensures v.None? ==> r == "undefined"
  {
    match v
    case Some(s) => s
    case None => "undefined"
  }

  const CdnPrefix := "https://cdn.discordapp.com/app-assets/"
  const PngSuffix := ".png"

  /** The `src` of an icon's image: the CDN prefix, the application id, '/',
      the icon id and ".png". A missing application id or icon id is
      rendered as "undefined", so the address is still produced. */
  function CdnUrl(clientId: Option<string>, iconId: Option<string>): (url: string)
    ensures CdnPrefix <= url
    ensures |url| == |CdnPrefix| + |Render(clientId)| + 1 + |Render(iconId)| + |PngSuffix|
    ensures url[|url| - |PngSuffix|..] == PngSuffix
  {
    CdnPrefix + AssetPath(Render(clientId), Render(iconId)) + PngSuffix
  }

  /** The path of an icon under the CDN prefix, without the ".png". */
  function AssetPath(clientId: string, iconId: string): string {
    clientId + "/" + iconId
  }

  /** The two ids a CDN address names. */
  datatype AssetRef = AssetRef(clientId: string, iconId: string)

  /** Reads the application id and icon id back out of a CDN address: the
      application id runs up to the first '/' after the prefix, the icon id
      from there up to the final ".png". */
  function ParseCdnUrl(url: string): (r: Option<AssetRef>)
    ensures r.Some? ==> '/' !in r.value.clientId
    ensures r.Some? ==> CdnUrl(Some(r.value.clientId), Some(r.value.iconId)) == url
  {
    match Strings.Between(url, CdnPrefix, PngSuffix)
    case None => None
    case Some(middle) =>
      match Strings.SplitFirst(middle, '/')
      case None => None
      case Some((c, i)) =>
        assert middle == AssetPath(c, i);
        Some(AssetRef(c, i))
  }

  /** Both ids can be read back from the address, provided the application
      id itself contains no '/'. */
  lemma CdnUrlRoundTrip(clientId: Option<string>, iconId: Option<string>)
    requires '/' !in Render(clientId)
    ensures ParseCdnUrl(CdnUrl(clientId, iconId)) == Some(AssetRef(Render(clientId), Render(iconId)))
  {
    var c, i := Render(clientId), Render(iconId);
    assert AssetPath(c, i) == c + ['/'] + i;
  }

  /** The address as the fixed text before the icon id, the icon id, and
      ".png". */
  lemma CdnUrlAroundIconId(clientId: Option<string>, iconId: Option<string>)
    ensures CdnUrl(clientId, iconId) == (CdnPrefix + Render(clientId) + "/") + Render(iconId) + PngSuffix
  {
    assert AssetPath(Render(clientId), Render(iconId)) == Render(clientId) + "/" + Render(iconId);
  }

  /** For a fixed application id, two icons share an image address exactly
      when their ids render to the same text. */
  lemma CdnUrlInjective(clientId: Option<string>, a: Option<string>, b: Option<string>)
    ensures CdnUrl(clientId, a) == CdnUrl(clientId, b) <==> Render(a) == Render(b)
  {
    var before := CdnPrefix + Render(clientId) + "/";
    CdnUrlAroundIconId(clientId, a);
    CdnUrlAroundIconId(clientId, b);
    if CdnUrl(clientId, a) == CdnUrl(clientId, b) {
      var m := Strings.Between(CdnUrl(clientId, a), before, PngSuffix);
      assert m == Some(Render(a)) && m == Some(Render(b));
    }
  }

  /** The image addresses of the displayed list, one per record, in list
      order. */
  function ImageSources(clientId: Option<string>, icons: seq<IconList.IconRecord>): (r: seq<string>)
    ensures |r| == |icons|
    ensures forall i :: 0 <= i < |icons| ==> r[i] == CdnUrl(clientId, icons[i].id)
  {
    seq(|icons|, i requires 0 <= i < |icons| => CdnUrl(clientId, icons[i].id))
  }

  /** A list whose records all carry distinct ids shows distinct images. */
  lemma DistinctIdsDistinctImages(clientId: Option<string>, icons: seq<IconList.IconRecord>)
    requires IconList.UniqueIds(icons)
    requires forall i :: 0 <= i < |icons| ==> icons[i].id.Some?
    ensures forall i, j :: 0 <= i < j < |icons| ==>
      ImageSources(clientId, icons)[i] != ImageSources(clientId, icons)[j]
  {
    var r := ImageSources(clientId, icons);
    forall i, j | 0 <= i < j < |icons| ensures r[i] != r[j] {
      CdnUrlInjective(clientId, icons[i].id, icons[j].id);
    }
  }
}
