/** The image and label logic of the swipe card (src/EventSwipe.jsx): a title hash that
    spreads events over the client's photo pools, the fallback photo of an event, the check
    an event's own image must pass to be shown, and the type label. */
module EventSwipe {
  import opened Wrappers
  import opened Js
  import opened Text
  import opened Catalog
  import opened AggregateEvents
  import opened AgentResponse

  // ---------------------------------------------------------------------------------------
  // The title hash.

  /** `x << 5` on JavaScript numbers: both the operand and the result are 32-bit integers. */
  function ShiftLeft5(x: int): (r: int)
    ensures -TWO_31 <= r < TWO_31
  {
    ToInt32(ToInt32(x) * 32)
  }

  /** One step of hashString: `hash = (hash << 5) - hash + code; hash |= 0`. */
  function HashStep(h: int, c: char): (r: int)
    ensures -TWO_31 <= r < TWO_31
  {
    ToInt32(ShiftLeft5(h) - h + c as int)
  }

  /** The hash of a string: the steps folded over its characters from the left. */
  function HashFold(s: string): (h: int)
    ensures -TWO_31 <= h < TWO_31
  {
    if s == [] then 0 else HashStep(HashFold(s[..|s| - 1]), s[|s| - 1])
  }

  /** The same polynomial over unbounded integers: the code of each character times 31 to
      the power of the number of characters after it. */
  function Polynomial31(s: string): int {
    if s == [] then 0 else 31 * Polynomial31(s[..|s| - 1]) + s[|s| - 1] as int
  }

  /** On a 32-bit hash, a step is 31 times the hash plus the code, wrapped to 32 bits. */
  lemma HashStepIsTimes31(h: int, c: char)
    requires -TWO_31 <= h < TWO_31
    ensures HashStep(h, c) == ToInt32(31 * h + c as int)
  {
    ToInt32OfInt32(h);
    var shifted := ToInt32(h * 32);
    assert (shifted - h * 32) % TWO_32 == 0;
    assert (shifted - h + c as int) - (31 * h + c as int) == shifted - h * 32;
    ToInt32Congruent(shifted - h + c as int, 31 * h + c as int);
  }

  lemma ScaleCongruent(a: int, b: int, m: int)
    requires (a - b) % TWO_32 == 0
    ensures (m * a - m * b) % TWO_32 == 0
  {
    var k := (a - b) / TWO_32;
    assert a - b == k * TWO_32;
    assert m * a - m * b == (m * k) * TWO_32;
    ModAddMultiple(0, m * k);
  }

  /** The hash is the polynomial hash of the string reduced to a signed 32-bit integer:
      wrapping after every step gives what wrapping once at the end would. */
  lemma {:induction false} HashFoldIsPolynomial(s: string)
    ensures HashFold(s) == ToInt32(Polynomial31(s))
  {
    if s != [] {
      var p, c := s[..|s| - 1], s[|s| - 1];
      HashFoldIsPolynomial(p);
      HashStepIsTimes31(HashFold(p), c);
      ScaleCongruent(HashFold(p), Polynomial31(p), 31);
      assert (31 * HashFold(p) + c as int) - (31 * Polynomial31(p) + c as int) == 31 * HashFold(p) - 31 * Polynomial31(p);
      ToInt32Congruent(31 * HashFold(p) + c as int, 31 * Polynomial31(p) + c as int);
    }
  }

  /** hashString as a value: 0 for the empty string, else the absolute value of the hash. */
  function HashOf(value: string): (h: nat)
    ensures h <= TWO_31
  {
    if value == [] then 0 else Abs(HashFold(value))
  }

  /** hashString: the characters are folded in one at a time, the hash wrapped to 32 bits
      after each. */
  method HashString(value: string) returns (hash: nat)
    ensures hash == HashOf(value)
    ensures hash == Abs(ToInt32(Polynomial31(value)))
  {
    HashFoldIsPolynomial(value);
    if |value| == 0 {
      return 0;
    }
    var h := 0;
    for index := 0 to |value|
      invariant h == HashFold(value[..index])
    {
      assert value[..index + 1][..index] == value[..index];
      h := ShiftLeft5(h) - h + value[index] as int;
      h := ToInt32(h);
    }
    assert value[..|value|] == value;
    return Abs(h);
  }

  // ---------------------------------------------------------------------------------------
  // The fallback photo.

  /** pickFromArray: the element at `seed % length` (JavaScript's remainder), nothing for an
      empty array or for a negative index. */
  function PickFromArray<T>(items: seq<T>, seed: int): (r: Option<T>)
    ensures r.Some? ==> r.value in items
    ensures seed >= 0 ==> (r.Some? <==> |items| > 0)
  {
    if |items| == 0 then None
    else
      var index := Rem(seed, |items|);
      if index < 0 then None else Some(items[index])
  }

  lemma ModShift(a: int, n: int)
    requires n > 0
    ensures (a + n) % n == a % n
  {
    var q, r := a / n, a % n;
    var q', r' := (a + n) / n, (a + n) % n;
    assert a == q * n + r && a + n == q' * n + r';
    var d := q' - q - 1;
    assert d * n == r - r';
  }

  /** Seeds that differ by the pool's length pick the same element. */
  lemma PickIsPeriodic<T>(items: seq<T>, seed: nat)
    requires |items| > 0
    ensures PickFromArray(items, seed + |items|) == PickFromArray(items, seed) == Some(items[seed % |items|])
  {
    ModShift(seed, |items|);
  }

  /** The fallback of a normalised type and a seed, as written: the pools are indexed by the
      seed, and any other type is looked up in the type map, whose lookup also finds the
      members every object inherits. */
  function FallbackImageAsWritten(normalized: string, seed: nat): JsValue {
    if normalized == "tech" then Str(PhotoUrl(PickFromArray(CLIENT_TECH_FALLBACK_IMAGES, seed).GetOr(DEFAULT_FALLBACK_IMAGE)))
    else if normalized == "outdoors" then Str(PhotoUrl(PickFromArray(OUTDOOR_FALLBACK_IMAGES, seed).GetOr(DEFAULT_FALLBACK_IMAGE)))
    else if normalized != "" && !ClientTypeImage(normalized).Absent? then
      match ClientTypeImage(normalized)
      case Own(p) => Str(PhotoUrl(p))
      case _ => Obj
    else Str(PhotoUrl(DEFAULT_FALLBACK_IMAGE))
  }

  /** selectFallbackImage as written. */
  function SelectFallbackImageAsWritten(e: Event): JsValue {
    FallbackImageAsWritten(Normalize(e.kind), HashOf(e.title.GetOr("")))
  }

  /** The fallback photo of a normalised type and a seed, the type map read for its own
      entries only: a pool photo chosen by the seed for tech and outdoors, the map's photo
      for another known type, the default photo otherwise. */
  function FallbackPhoto(normalized: string, seed: nat): (p: Photo)
    ensures normalized == "tech" ==> p == CLIENT_TECH_FALLBACK_IMAGES[seed % |CLIENT_TECH_FALLBACK_IMAGES|]
    ensures normalized == "outdoors" ==> p == OUTDOOR_FALLBACK_IMAGES[seed % |OUTDOOR_FALLBACK_IMAGES|]
    ensures normalized != "tech" && normalized != "outdoors" && ClientTypeImage(normalized).Own? ==>
              p == ClientTypeImage(normalized).photo
    ensures normalized != "tech" && normalized != "outdoors" && !ClientTypeImage(normalized).Own? ==>
              p == DEFAULT_FALLBACK_IMAGE
  {
    if normalized == "tech" then PickFromArray(CLIENT_TECH_FALLBACK_IMAGES, seed).GetOr(DEFAULT_FALLBACK_IMAGE)
    else if normalized == "outdoors" then PickFromArray(OUTDOOR_FALLBACK_IMAGES, seed).GetOr(DEFAULT_FALLBACK_IMAGE)
    else if normalized != "" && ClientTypeImage(normalized).Own? then ClientTypeImage(normalized).photo
    else DEFAULT_FALLBACK_IMAGE
  }

  /** selectFallbackImage with the type map read for its own entries only. */
  function SelectFallbackPhoto(e: Event): Photo {
    FallbackPhoto(Normalize(e.kind), HashOf(e.title.GetOr("")))
  }

  /** An event without a title hashes to 0 and so takes the first photo of its pool. */
  lemma UntitledEventTakesFirstPoolPhoto(e: Event)
    requires e.title.None? || e.title == Some("")
    ensures Normalize(e.kind) == "tech" ==> SelectFallbackPhoto(e) == CLIENT_TECH_FALLBACK_IMAGES[0]
    ensures Normalize(e.kind) == "outdoors" ==> SelectFallbackPhoto(e) == OUTDOOR_FALLBACK_IMAGES[0]
  {
    assert HashOf(e.title.GetOr("")) == 0;
  }

  /** Away from the two inherited names the corrected lookup changes nothing. */
  lemma FallbackAgreesOutsideInheritedNames(normalized: string, seed: nat)
    requires !IsInheritedName(normalized)
    ensures FallbackImageAsWritten(normalized, seed) == Str(PhotoUrl(FallbackPhoto(normalized, seed)))
  {
    if normalized != "tech" && normalized != "outdoors" && normalized != "" {
      assert !ClientTypeImage(normalized).Inherited?;
    }
  }

  predicate IsLowerWord(s: string) {
    forall i :: 0 <= i < |s| ==> 'a' <= s[i] <= 'z'
  }

  lemma LowerWordUntrimmed(s: string)
    requires IsLowerWord(s)
    ensures Trim(s) == s
  {
    if s != [] {
      assert 'a' <= s[0] <= 'z' && 'a' <= s[|s| - 1] <= 'z';
    }
    TrimOfTrimmed(s);
  }

  lemma LowerWordUnchanged(s: string)
    requires IsLowerWord(s)
    ensures ToLower(s) == s
  {
    forall i | 0 <= i < |s|
      ensures ToLower(s)[i] == s[i]
    {
      assert 'a' <= s[i] <= 'z';
    }
  }

  /** A lower-case word is its own normalised type. */
  lemma NormalizeLowerWord(s: string)
    requires IsLowerWord(s)
    ensures Normalize(Some(s)) == s
  {
    LowerWordUntrimmed(s);
    LowerWordUnchanged(s);
  }

  /** As written, a type that names an inherited member of the type map yields that member,
      not an image address, whatever the seed. */
  lemma InheritedTypeYieldsNoAddress(normalized: string, seed: nat)
    requires IsInheritedName(normalized)
    ensures FallbackImageAsWritten(normalized, seed) == Obj
  {
    assert normalized != "tech" && normalized != "outdoors" && normalized != "";
    assert ClientTypeImage(normalized) == Inherited;
  }

  /** An event typed "constructor" gets, as written, the object's inherited constructor
      function instead of an image address. */
  lemma ConstructorTypeYieldsNoAddress(e: Event)
    requires e.kind == Some("constructor")
    ensures SelectFallbackImageAsWritten(e) == Obj
  {
    NormalizeConstructor();
    InheritedTypeYieldsNoAddress(Normalize(e.kind), HashOf(e.title.GetOr("")));
  }

  lemma NormalizeConstructor()
    ensures Normalize(Some("constructor")) == "constructor"
  {
    NormalizeLowerWord("constructor");
  }

  // ---------------------------------------------------------------------------------------
  // The card.

  /** isValidImageUrl: a non-empty http(s) URL whose host, when it ends in "unsplash.com",
      is one of the trusted ones. */
  predicate IsValidImageUrl(parseUrl: string -> Option<Url>, value: Option<string>) {
    && value.Some? && value.value != ""
    && parseUrl(value.value).Some?
    && (parseUrl(value.value).value.protocol == "http:" || parseUrl(value.value).value.protocol == "https:")
    && !(EndsWith(parseUrl(value.value).value.hostname, "unsplash.com") && parseUrl(value.value).value.hostname !in TRUSTED_IMAGE_HOSTS)
  }

  /** The image a card shows, as written: the event's own image when valid, else the
      fallback, which may be a non-string. */
  function CardImageAsWritten(parseUrl: string -> Option<Url>, e: Event): JsValue {
    if IsValidImageUrl(parseUrl, e.image) then Str(e.image.value) else SelectFallbackImageAsWritten(e)
  }

  /** The image a card shows: the event's own image when valid, else the fallback photo. */
  function CardImage(parseUrl: string -> Option<Url>, e: Event): (src: string)
    ensures IsValidImageUrl(parseUrl, e.image) ==> src == e.image.value
    ensures !IsValidImageUrl(parseUrl, e.image) ==> src == PhotoUrl(SelectFallbackPhoto(e))
  {
    if IsValidImageUrl(parseUrl, e.image) then e.image.value else PhotoUrl(SelectFallbackPhoto(e))
  }

  /** The parser reads every configured photo address as https on its own host. */
  predicate ParsesCatalog(parseUrl: string -> Option<Url>) {
    forall p: Photo :: parseUrl(PhotoUrl(p)) == Some(Url("https:", HostName(PhotoHost(p))))
  }

  /** Every configured photo passes the card's own check. */
  lemma PhotoIsValid(parseUrl: string -> Option<Url>, p: Photo)
    requires ParsesCatalog(parseUrl)
    ensures IsValidImageUrl(parseUrl, Some(PhotoUrl(p)))
  {
    assert parseUrl(PhotoUrl(p)) == Some(Url("https:", HostName(PhotoHost(p))));
    assert HostName(PhotoHost(p)) in TRUSTED_IMAGE_HOSTS;
  }

  /** Whatever the event, the card shows an address that passes the card's own check. */
  lemma CardImageAlwaysValid(parseUrl: string -> Option<Url>, e: Event)
    requires ParsesCatalog(parseUrl)
    ensures IsValidImageUrl(parseUrl, Some(CardImage(parseUrl, e)))
  {
    if !IsValidImageUrl(parseUrl, e.image) {
      PhotoIsValid(parseUrl, SelectFallbackPhoto(e));
    }
  }

  /** As written, an event typed "constructor" without a valid image of its own gets a card
      whose source is not a string at all. */
  lemma ConstructorCardHasNoAddress(parseUrl: string -> Option<Url>, e: Event)
    requires e.kind == Some("constructor") && !IsValidImageUrl(parseUrl, e.image)
    ensures !CardImageAsWritten(parseUrl, e).Str?
  {
    ConstructorTypeYieldsNoAddress(e);
  }

  /** The type label: the type when it is a non-empty string, else "event". */
  function TypeLabel(kind: Option<string>): (shown: string)
    ensures shown != ""
    ensures kind.Some? && kind.value != "" ==> shown == kind.value
    ensures kind.None? || kind.value == "" ==> shown == "event"
  {
    if kind.Some? && kind.value != "" then kind.value else "event"
  }

  // ---------------------------------------------------------------------------------------
  // Server and client together.

  /** An address the server accepts without a probe (http(s) on a trusted host) passes the
      card's check with the same parser. */
  lemma TrustedServerImagePassesCard(env: Env, c: string)
    requires c != "" && IsHttpUrl(env, c) && IsTrustedHost(env, c)
    ensures IsValidImageUrl(env.parseUrl, Some(c))
  {
  }

  /** The host the server treats as broken is also refused by the card. */
  lemma BrokenHostRefusedByCard(env: Env, c: string)
    requires IsLikelyBrokenUnsplashUrl(env, c)
    ensures !IsValidImageUrl(env.parseUrl, Some(c))
  {
    assert EndsWith(BROKEN_UNSPLASH_HOST, "unsplash.com");
  }
}
