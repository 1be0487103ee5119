/** Optional values: the model's stand-in for `null` and for the empty data URL `''`. */
module Wrappers {
  datatype Option<+T> = None | Some(value: T)
}

/** Bytes, channels and raster buffers shared by the texture tools. */
module Pixels {

  /** One element of an RGBA buffer (a `Uint8ClampedArray` cell). */
  type Byte = b: int | 0 <= b < 256

  /** The four channels of an RGBA pixel, in buffer order. */
  datatype Channel = Red | Green | Blue | Alpha

  const AllChannels: seq<Channel> := [Red, Green, Blue, Alpha]

  /** Position of a channel's byte inside its four-byte pixel. */
  function Offset(c: Channel): (k: nat)
    ensures k < 4
    ensures AllChannels[k] == c
  {
    match c
    case Red => 0
    case Green => 1
    case Blue => 2
    case Alpha => 3
  }

  /** The channel at byte position `j` of a pixel. */
  function ChannelAt(j: nat): (c: Channel)
    requires j < 4
    ensures Offset(c) == j
  {
    AllChannels[j]
  }

  /** One value per channel, held in four named fields as the tools keep them. */
  datatype PerChannel<T> = PerChannel(red: T, green: T, blue: T, alpha: T)
  {
    function Get(c: Channel): T
    {
      match c
      case Red => red
      case Green => green
      case Blue => blue
      case Alpha => alpha
    }

    /** Replaces the value of channel `c` and keeps the other three. */
    function Set(c: Channel, v: T): (r: PerChannel<T>)
      ensures r.Get(c) == v
      ensures forall d :: d != c ==> r.Get(d) == Get(d)
    {
      match c
      case Red => this.(red := v)
      case Green => this.(green := v)
      case Blue => this.(blue := v)
      case Alpha => this.(alpha := v)
    }

    /** The four values in channel order (`Object.values`). */
    function Items(): (items: seq<T>)
      ensures |items| == 4
      ensures forall c :: items[Offset(c)] == Get(c)
    {
      [red, green, blue, alpha]
    }
  }

  /** The channel's name as the tools spell it (`ChannelType`). */
  function ChannelName(c: Channel): string
  {
    match c
    case Red => "red"
    case Green => "green"
    case Blue => "blue"
    case Alpha => "alpha"
  }

  lemma ChannelNameInjective(c: Channel, d: Channel)
    ensures ChannelName(c) == ChannelName(d) ==> c == d
  {
  }

  /** A decoded image of `w` by `h` pixels holds exactly `w * h * 4` bytes. */
  predicate IsRaster(w: nat, h: nat, bytes: seq<Byte>)
  {
    |bytes| == w * h * 4
  }

  /** The four bytes of pixel `p` of a buffer. */
  function PixelAt(buf: seq<Byte>, p: nat): (px: seq<Byte>)
    requires 4 * p + 4 <= |buf|
    ensures |px| == 4
  {
    [buf[4 * p], buf[4 * p + 1], buf[4 * p + 2], buf[4 * p + 3]]
  }
}
