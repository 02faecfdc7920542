/** The static image configuration of the server (server/agentResponse.js) and of the
    client card (src/EventSwipe.jsx). Both sides declare their own copies; the values that
    differ between them (the tech pool and the `tech`/`outdoors` entries of the type map)
    are kept apart here. */
module Catalog {

  /** The two hosts the configured photos live on. */
  datatype Host = ImagesHost | PlusHost

  function HostName(h: Host): string {
    match h
    case ImagesHost => "images.unsplash.com"
    case PlusHost => "plus.unsplash.com"
  }

  /** Every photo the server or the client can fall back to, named after the role it plays
      there; its address is `https://<host>/<path><query>`. */
  datatype Photo =
    | DefaultPhoto
    | Tech1 | Tech2 | Tech3 | Tech4 | Tech5 | Tech6
    | Outdoor1 | Outdoor2 | Outdoor3 | Outdoor4
    | MarketPhoto | MuseumPhoto | MusicPhoto | WellnessPhoto | StagePhoto | BooksPhoto
    | TrailPhoto | SportsPhoto | PoliticalPhoto | OtherPhoto

  function PhotoHost(p: Photo): Host {
    if p == Tech3 || p == Tech4 then PlusHost else ImagesHost
  }

  function PhotoPath(p: Photo): string {
    match p
    case DefaultPhoto => "photo-1529333166437-7750a6dd5a70"
    case Tech1 => "photo-1518770660439-4636190af475"
    case Tech2 => "photo-1531297484001-80022131f5a1"
    case Tech3 => "premium_photo-1681399975135-252eab5fd2db"
    case Tech4 => "premium_photo-1661963874418-df1110ee39c1"
    case Tech5 => "photo-1486312338219-ce68d2c6f44d"
    case Tech6 => "photo-1504384764586-bb4cdc1707b0"
    case Outdoor1 => "photo-1482192505345-5655af888cc4"
    case Outdoor2 => "photo-1501785888041-af3ef285b470"
    case Outdoor3 => "photo-1506744038136-46273834b3fb"
    case Outdoor4 => "photo-1493244040629-496f6d136cc6"
    case MarketPhoto => "photo-1523475472560-d2df97ec485c"
    case MuseumPhoto => "photo-1500530855697-b586d89ba3ee"
    case MusicPhoto => "photo-1511379938547-c1f69419868d"
    case WellnessPhoto => "photo-1476480862126-209bfaa8edc8"
    case StagePhoto => "photo-1515169067865-5387a796848c"
    case BooksPhoto => "photo-1512820790803-83ca734da794"
    case TrailPhoto => "photo-1500534314209-a25ddb2bd429"
    case SportsPhoto => "photo-1517649763962-0c623066013b"
    case PoliticalPhoto => "photo-1540783797630-447cd0f3eb3d"
    case OtherPhoto => "photo-1466978913421-dad2ebd01d17"
  }

  /** The query most configured photos carry. */
  const CROP_1200: string := "?auto=format&fit=crop&w=1200&q=80"

  function PhotoQuery(p: Photo): string {
    match p
    case Tech2 => "?auto=format&fit=crop&q=80&w=1420"
    case Tech3 => "?auto=format&fit=crop&q=80&w=1374"
    case Tech4 => "?auto=format&fit=crop&q=80&w=1386"
    case Tech5 => "?auto=format&fit=crop&q=80&w=1472"
    case Tech6 => "?auto=format&fit=crop&q=80&w=1470"
    case _ => CROP_1200
  }

  function PhotoUrl(p: Photo): (u: string)
    ensures |u| > 0
  {
    "https://" + HostName(PhotoHost(p)) + "/" + PhotoPath(p) + PhotoQuery(p)
  }
  /** The photo used when nothing better is known (identical on server and client). */
  const DEFAULT_FALLBACK_IMAGE: Photo := DefaultPhoto

  /** The image hosts both sides trust without checking. */
  const TRUSTED_IMAGE_HOSTS: set<string> := {"images.unsplash.com", "plus.unsplash.com", "source.unsplash.com"}

  /** The host name the server treats as known to be broken. */
  const BROKEN_UNSPLASH_HOST: string := "image.unsplash.com"

  /** Photos for outdoor events (identical on server and client). */
  const OUTDOOR_FALLBACK_IMAGES: seq<Photo> := [Outdoor1, Outdoor2, Outdoor3, Outdoor4]

  /** The server's tech pool. */
  const SERVER_TECH_FALLBACK_IMAGES: seq<Photo> := [Tech1, Tech2, Tech3, Tech4, Tech5, Tech6]

  /** The client's tech pool: the server's without its first photo. */
  const CLIENT_TECH_FALLBACK_IMAGES: seq<Photo> := SERVER_TECH_FALLBACK_IMAGES[1..]

  /** Reading a property of a plain JavaScript object literal: an own property, a member
      inherited from Object.prototype, or nothing (undefined). */
  datatype Property = Own(photo: Photo) | Inherited | Absent

  /** The lower-case names under which every object literal inherits a truthy, non-string
      member of Object.prototype (the constructor function and the prototype itself). */
  predicate IsInheritedName(key: string) {
    key == "constructor" || key == "__proto__"
  }

  /** The server's `typeImageMap[key]`. */
  function ServerTypeImage(key: string): Property {
    if key == "tech" then Own(Tech1)
    else if key == "museum" then Own(MuseumPhoto)
    else if key == "outdoors" then Own(TrailPhoto)
    else if key == "political" then Own(PoliticalPhoto)
    else if key == "music" then Own(MusicPhoto)
    else if key == "sports" then Own(SportsPhoto)
    else if key == "other" then Own(OtherPhoto)
    else if IsInheritedName(key) then Inherited
    else Absent
  }

  /** The client's `TYPE_IMAGE_MAP[key]`: its `tech` and `outdoors` entries are the first
      photos of the client's pools (Tech2 and Outdoor1). */
  function ClientTypeImage(key: string): Property {
    if key == "tech" then Own(Tech2)
    else if key == "museum" then Own(MuseumPhoto)
    else if key == "outdoors" then Own(Outdoor1)
    else if key == "political" then Own(PoliticalPhoto)
    else if key == "music" then Own(MusicPhoto)
    else if key == "sports" then Own(SportsPhoto)
    else if key == "other" then Own(OtherPhoto)
    else if IsInheritedName(key) then Inherited
    else Absent
  }

  /** The topics of the server's curated keyword table, in its priority order. */
  datatype Topic = Farmers | Tech | Museum | Music | Wellness | Stage | Books | Outdoor | Sports | Civic | Food

  /** The curated table: each topic's pattern and the photo it selects, first match wins. */
  const CURATED_IMAGE_CATALOG: seq<(Topic, Photo)> := [
    (Farmers, MarketPhoto),
    (Tech, Tech1),
    (Museum, MuseumPhoto),
    (Music, MusicPhoto),
    (Wellness, WellnessPhoto),
    (Stage, StagePhoto),
    (Books, BooksPhoto),
    (Outdoor, TrailPhoto),
    (Sports, SportsPhoto),
    (Civic, PoliticalPhoto),
    (Food, OtherPhoto)
  ]
}
