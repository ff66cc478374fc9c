/**
 * The pure helpers of the page: the three fallback-chain extractors that
 * read a raw catalog tile, the mapping of a row of raw tiles to the records
 * the modal uses, what happens when a `x || []` value is used as a row of
 * tiles, and the choice between video and image in the detail modal.
 *
 * The image-format key and the placeholder image path are constants of the
 * application that this model receives as parameters.
 */
module HomePageUtil {
  import opened JsonModel

  /** The three fields of a tile the detail modal needs. */
  datatype MappedTile = MappedTile(videoSrc: Json, imgSrc: Json, title: Json)

  const VideoUrlPath: seq<Step> :=
    [Field("videoArt"), First, Field("mediaMetadata"), Field("urls"), First, Field("url")]

  /** Where the per-format image bucket of a tile lives. */
  function ImageBucketPath(format: string): seq<Step> {
    [Field("image"), Field("tile"), Field(format)]
  }

  const ImageUrlPath: seq<Step> := [Field("default"), Field("url")]

  const TitleBucketPath: seq<Step> := [Field("text"), Field("title"), Field("full")]

  const TitleTextPath: seq<Step> := [Field("default"), Field("content")]

  /** `tile.videoArt?.[0]?.mediaMetadata?.urls?.[0]?.url || ''`.
      A null tile makes `tile.videoArt` throw, hence the precondition. */
  function VideoUrl(tile: Json): (r: Json)
    requires tile != JNull
    ensures r == JStr("") || Truthy(r)
  {
    OrEmpty(Member(Index0(Member(Member(Index0(Member(Some(tile), "videoArt")), "mediaMetadata"), "urls")), "url"))
  }

  /** The image url: the bucket `tile.image?.tile?.[format] || {}`, then the
      value under its FIRST key only, then `?.default?.url || ''`. */
  function ImageUrl(tile: Json, format: string): (r: Json)
    requires tile != JNull
    ensures r == JStr("") || Truthy(r)
  {
    var imageLocation := Or(Member(Member(Member(Some(tile), "image"), "tile"), format), JObj([]));
    OrEmpty(Member(Member(FirstValue(imageLocation), "default"), "url"))
  }

  /** The title: `tile.text?.title?.full || {}`, the value under its FIRST
      key only, then `?.default?.content || ''`. */
  function TitleText(tile: Json): (r: Json)
    requires tile != JNull
    ensures r == JStr("") || Truthy(r)
  {
    var titleLocation := Or(Member(Member(Member(Some(tile), "text"), "title"), "full"), JObj([]));
    OrEmpty(Member(Member(FirstValue(titleLocation), "default"), "content"))
  }

  /** Each extractor reads its optional chain: the video url is the value at
      the end of `VideoUrlPath`; the image url and the title go through the
      first value of a bucket found along a path. */
  lemma VideoUrlFollowsPath(tile: Json)
    requires tile != JNull
    ensures VideoUrl(tile) == OrEmpty(Follow(Some(tile), VideoUrlPath))
  {
  }

  lemma ImageUrlFollowsPath(tile: Json, format: string)
    requires tile != JNull
    ensures ImageUrl(tile, format)
         == OrEmpty(Follow(FirstValue(Or(Follow(Some(tile), ImageBucketPath(format)), JObj([]))), ImageUrlPath))
  {
    var bucket := Member(Member(Member(Some(tile), "image"), "tile"), format);
    assert Follow(Some(tile), ImageBucketPath(format)) == bucket by {
      var image := Member(Some(tile), "image");
      assert ImageBucketPath(format)[1..] == [Field("tile"), Field(format)];
      assert Follow(Some(tile), ImageBucketPath(format)) == Follow(image, [Field("tile"), Field(format)]);
      assert [Field("tile"), Field(format)][1..] == [Field(format)];
      assert Follow(image, [Field("tile"), Field(format)]) == Follow(Member(image, "tile"), [Field(format)]);
      assert [Field(format)][1..] == [];
      assert Follow(Member(image, "tile"), [Field(format)]) == Follow(bucket, []);
    }
  }

  lemma TitleTextFollowsPath(tile: Json)
    requires tile != JNull
    ensures TitleText(tile)
         == OrEmpty(Follow(FirstValue(Or(Follow(Some(tile), TitleBucketPath), JObj([]))), TitleTextPath))
  {
  }

  /** The record `{videoSrc, imgSrc, title}` built for one tile. */
  function MapTile(tile: Json, format: string): MappedTile
    requires tile != JNull
  {
    MappedTile(VideoUrl(tile), ImageUrl(tile, format), TitleText(tile))
  }

  predicate NoNull(tiles: seq<Json>) {
    forall i :: 0 <= i < |tiles| ==> tiles[i] != JNull
  }

  /** `tiles.map(...)` in getMappedTiles: same length, same order, element i
      built from raw tile i. */
  function MappedTiles(tiles: seq<Json>, format: string): (r: seq<MappedTile>)
    requires NoNull(tiles)
    ensures |r| == |tiles|
    ensures forall i :: 0 <= i < |tiles| ==>
      r[i] == MapTile(tiles[i], format)
  {
    if tiles == [] then []
    else [MapTile(tiles[0], format)] + MappedTiles(tiles[1..], format)
  }

  /** A tile that holds `url` at `videoArt[0].mediaMetadata.urls[0].url`
      yields that url when it is truthy and `''` otherwise. */
  lemma VideoUrlFound(tile: Json, url: Json)
    requires tile != JNull && Follow(Some(tile), VideoUrlPath) == Some(url)
    ensures VideoUrl(tile) == (if Truthy(url) then url else JStr(""))
  {
    VideoUrlFollowsPath(tile);
  }

  /** A tile object with no `videoArt` member yields `''`. */
  lemma VideoUrlMissing(members: seq<(string, Json)>)
    requires forall i :: 0 <= i < |members| ==> members[i].0 != "videoArt"
    ensures VideoUrl(JObj(members)) == JStr("")
  {
  }

  /** Only the first key of the image bucket is consulted: a bucket whose
      first entry is `(key, entry)` yields `entry.default.url` (or `''`)
      whatever the later entries hold. */
  lemma ImageUrlFirstKeyOnly(tile: Json, format: string, key: string, entry: Json, rest: seq<(string, Json)>)
    requires tile != JNull
    requires Follow(Some(tile), ImageBucketPath(format)) == Some(JObj([(key, entry)] + rest))
    ensures ImageUrl(tile, format) == OrEmpty(Follow(Some(entry), ImageUrlPath))
  {
    ImageUrlFollowsPath(tile, format);
  }

  /** A missing or empty image bucket yields `''`. */
  lemma ImageUrlNoBucket(tile: Json, format: string)
    requires tile != JNull
    requires Follow(Some(tile), ImageBucketPath(format)) in {None, Some(JObj([]))}
    ensures ImageUrl(tile, format) == JStr("")
  {
    ImageUrlFollowsPath(tile, format);
  }

  /** Only the first key of `text.title.full` is consulted. */
  lemma TitleTextFirstKeyOnly(tile: Json, key: string, entry: Json, rest: seq<(string, Json)>)
    requires tile != JNull
    requires Follow(Some(tile), TitleBucketPath) == Some(JObj([(key, entry)] + rest))
    ensures TitleText(tile) == OrEmpty(Follow(Some(entry), TitleTextPath))
  {
    TitleTextFollowsPath(tile);
  }

  /** What the page gets from a value `items` (already `x || []`) that it
      uses as an array of raw tiles: the number of tile elements its loop
      builds (`items.length` iterations of buildContentTile), and the mapped
      tiles, or None where the source throws before it has them: a null
      element throws in buildContentTile (and nothing is built), and a
      value that is not an array has no `map` method. */
  datatype TileBatch = TileBatch(domTiles: nat, mapped: Option<seq<MappedTile>>)

  function TileBatchOf(items: Json, format: string): (b: TileBatch)
    ensures b.mapped.Some? <==> items.JArr? && NoNull(items.items)
    ensures b.mapped.Some? ==>
      b.domTiles == |items.items| && b.mapped.value == MappedTiles(items.items, format)
    ensures b.mapped.None? ==> b.domTiles == (if items.JStr? then |items.s| else 0)
  {
    match items
    case JArr(xs) =>
      if NoNull(xs) then TileBatch(|xs|, Some(MappedTiles(xs, format))) else TileBatch(0, None)
    case JStr(s) => TileBatch(|s|, None)
    case _ => TileBatch(0, None)
  }

  /** The media of the detail modal. */
  datatype Media = Video(src: Json) | Image(src: Json)

  datatype DetailModal = DetailModal(media: Media, title: Json)

  /** The media choice and title of buildDetailModal. */
  function BuildDetailModal(tile: MappedTile, noImagePath: string): (m: DetailModal)
    ensures m.title == tile.title
    ensures m.media.Video? <==> Truthy(tile.videoSrc)
    ensures m.media.Video? ==> m.media.src == tile.videoSrc
    ensures m.media.Image? ==> m.media.src == (if Truthy(tile.imgSrc) then tile.imgSrc else JStr(noImagePath))
  {
    var media := if Truthy(tile.videoSrc) then Video(tile.videoSrc) else Image(Or(Some(tile.imgSrc), JStr(noImagePath)));
    DetailModal(media, tile.title)
  }

  /** For a tile mapped from the catalog, the modal shows the video exactly
      when the video url is not `''`; otherwise the image url, or the
      placeholder path when that is `''`. */
  lemma ModalOfMappedTile(tile: Json, format: string, noImagePath: string)
    requires tile != JNull
    ensures var t := MapTile(tile, format);
      var m := BuildDetailModal(t, noImagePath);
      && (m.media.Video? <==> t.videoSrc != JStr(""))
      && (m.media.Image? ==> m.media.src == (if t.imgSrc != JStr("") then t.imgSrc else JStr(noImagePath)))
      && m.title == TitleText(tile)
  {
  }
}
