/** Settings persistence: a key/value document kept in memory and stored in
    a 1024-byte EEPROM image as its serialised text followed by a NUL byte. */
module Settings {

  type Byte = b: int | 0 <= b < 0x100

  /** An Arduino `String`, byte by byte. */
  type Text = seq<Byte>

  /** The JSON document `settings`, as the string-to-string object it holds. */
  type Doc = map<Text, Text>

  /** `EEPROM_SIZE`. */
  const EepromSize := 1024

  /** `serializeJson` and `deserializeJson`, which this model takes as given. */
  datatype Codec = Codec(serialize: Doc -> Text, parse: Text -> Doc)

  /** What the persistence layer relies on from the JSON library. */
  ghost predicate RoundTrips(codec: Codec) {
    forall d :: codec.parse(codec.serialize(d)) == d
  }

  predicate NoNul(t: Text) {
    forall k :: 0 <= k < |t| ==> t[k] != 0
  }

  /** The string `begin` reads: the bytes of the image before its first NUL,
      or all of them when it holds none. */
  function ReadFrame(img: seq<Byte>): (r: Text)
    ensures |r| <= |img| && r == img[..|r|]
    ensures NoNul(r)
    ensures |r| < |img| ==> img[|r|] == 0
  {
    if img == [] || img[0] == 0 then []
    else [img[0]] + ReadFrame(img[1..])
  }

  /** The image after `set` has written `t` and its terminating NUL. */
  function WriteFrame(img: seq<Byte>, t: Text): (r: seq<Byte>)
    requires |t| < |img|
    ensures |r| == |img|
    ensures r[..|t|] == t && r[|t|] == 0
    ensures forall k :: |t| < k < |img| ==> r[k] == img[k]
  {
    t + [0] + img[|t| + 1..]
  }

  /** A string written by `set` is read back by `begin` exactly when it holds
      no NUL byte; otherwise `begin` stops at its first NUL. */
  lemma {:induction false} FrameRoundTrip(img: seq<Byte>, t: Text)
    requires |t| < |img|
    ensures ReadFrame(WriteFrame(img, t)) == t <==> NoNul(t)
    ensures ReadFrame(WriteFrame(img, t)) == ReadFrame(t + [0])
  {
    var w := WriteFrame(img, t);
    if t == [] {
      assert w[0] == 0;
    } else if t[0] == 0 {
      assert w[0] == 0;
    } else {
      assert w[1..] == WriteFrame(img[1..], t[1..]);
      FrameRoundTrip(img[1..], t[1..]);
      assert (t + [0])[1..] == t[1..] + [0];
      assert NoNul(t) <==> NoNul(t[1..]) by {
        if NoNul(t[1..]) {
          forall k | 0 <= k < |t| ensures t[k] != 0 {
            if k > 0 {
              assert t[k] == t[1..][k - 1];
            }
          }
        }
      }
    }
  }

  /** A document saved by `set` is the document a later `begin` loads, provided
      its text fits the image and contains no NUL. */
  lemma SaveThenLoad(codec: Codec, img: seq<Byte>, d: Doc)
    requires RoundTrips(codec)
    requires |codec.serialize(d)| < |img| && NoNul(codec.serialize(d))
    ensures codec.parse(ReadFrame(WriteFrame(img, codec.serialize(d)))) == d
  {
    FrameRoundTrip(img, codec.serialize(d));
  }

  /** The read loop of `begin`. */
  method ReadImage(eeprom: array<Byte>) returns (json: Text)
    requires eeprom.Length == EepromSize
    ensures json == ReadFrame(eeprom[..])
  {
    json := [];
    var i := 0;
    while i < EepromSize
      invariant 0 <= i <= EepromSize
      invariant json == eeprom[..i]
      invariant ReadFrame(eeprom[..]) == json + ReadFrame(eeprom[i..])
    {
      var c := eeprom[i];
      if c == 0 {
        break;
      }
      assert eeprom[i..][1..] == eeprom[i + 1..];
      json := json + [c];
      i := i + 1;
    }
  }

  class SettingsManager {
    /** The EEPROM image `EEPROM.read` and `EEPROM.write` address. */
    const eeprom: array<Byte>
    const codec: Codec
    var settings: Doc

    ghost predicate Valid()
      reads this
    {
      eeprom.Length == EepromSize
    }

    constructor (eeprom: array<Byte>, codec: Codec)
      requires eeprom.Length == EepromSize
      ensures Valid() && this.eeprom == eeprom && this.codec == codec && settings == map[]
    {
      this.eeprom := eeprom;
      this.codec := codec;
      settings := map[];
    }

    /** `begin`: load the document from the text stored before the first NUL. */
    method Begin()
      requires Valid()
      modifies this`settings
      ensures settings == codec.parse(ReadFrame(eeprom[..]))
    {
      var json := ReadImage(eeprom);
      settings := codec.parse(json);
    }

    /** `get`: `settings[key] | ""`, the stored value or the empty string for
        a missing key. */
    function Get(key: Text): (v: Text)
      reads this
      ensures key in settings ==> v == settings[key]
      ensures key !in settings ==> v == []
    {
      if key in settings then settings[key] else []
    }

    /** `set`: update the document, then write its text and a NUL from address 0. */
    method Set(key: Text, value: Text)
      requires Valid()
      requires |codec.serialize(settings[key := value])| < EepromSize
      modifies this`settings, eeprom
      ensures settings == old(settings)[key := value]
      ensures eeprom[..] == WriteFrame(old(eeprom[..]), codec.serialize(settings))
      ensures Get(key) == value && forall k :: k != key ==> Get(k) == old(Get(k))
    {
      settings := settings[key := value];
      var json := codec.serialize(settings);
      var i := 0;
      while i < |json|
        modifies eeprom
        invariant 0 <= i <= |json|
        invariant eeprom[..i] == json[..i]
        invariant forall k :: i <= k < EepromSize ==> eeprom[k] == old(eeprom[k])
      {
        eeprom[i] := json[i];
        i := i + 1;
      }
      eeprom[|json|] := 0;
      assert eeprom[..] == WriteFrame(old(eeprom[..]), json);
    }
  }
}
