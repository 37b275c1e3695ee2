/**
 * The AVBMessage wire codec of avbmsg.py: a header of three fixed-width decimal
 * fields (length, version, encoding), then the base64 IV when the body is
 * AES-CBC encrypted, then the body.
 *
 * The message is a record of six fields that the source updates in place. The
 * value `Fields` and the functions over it (AfterSetPsk, AfterSetData,
 * AfterLoads, Serialize, BodyText, Constructed) are the specification; the
 * class `AVBMessage` performs the same steps on its own fields and is proved
 * to agree with them.
 */
module AvbMsg {
  import opened Wrappers
  import opened Decimal
  import opened Crypto
  import opened Padding

  const HEADER_SIZE: nat := 8
  const LENGTH_FIELD_SIZE: nat := 4
  const VERSION_FIELD_SIZE: nat := 2
  const ENCODING_FIELD_SIZE: nat := 2
  const PSK_256_SIZE: nat := 44     // characters of a base64 256-bit key
  const IV_SIZE: nat := 24          // characters of a base64 16-byte IV
  const MAX_MESSAGE_SIZE: nat := 9999

  const VER_1: nat := 1

  const ENC_PLAIN: nat := 1
  const ENC_AES_CBC: nat := 2

  /** The exceptions the codec raises, each with the source's message or cause. */
  datatype Error =
    | UnsupportedVersion     // 'Unsupported version type'
    | UnsupportedEncoding    // 'Unsupported encoding type'
    | PskNotSupported        // 'PSK not supported for ENC_PLAIN'
    | BadPskLength           // 'Bad PSK length'
    | TooLong                // 'Message is too long'
    | TooSmall               // 'Message is too small'
    | NotAnInteger           // int() of a header field that is not a number
    | BadBase64              // b64decode of malformed text
    | BadAesKey              // AES.new with a key of the wrong size
    | BadAesIv               // AES.new with an IV of the wrong size
    | BadCiphertextLength    // decrypt of a ciphertext that is not whole blocks

  /** The six attributes of an AVBMessage. */
  datatype Fields = Fields(length: nat, version: nat, encoding: nat, data: string, psk: string, iv: string)

  /**
   * What one call leaves behind: the fields afterwards and the exception it
   * raised, if any. Fields are assigned one at a time, so a call that raises
   * may already have changed some of them.
   */
  datatype Step = Step(fields: Fields, raised: Option<Error>)

  /** The values __init__ assigns before looking at its arguments (lines 31-36). */
  const Defaults := Fields(HEADER_SIZE, VER_1, ENC_PLAIN, "", "", "")

  /** The header and body fit the widths that dumps writes them in. */
  predicate FitsWidths(f: Fields)
  {
    f.length <= MAX_MESSAGE_SIZE && f.version < 100 && f.encoding < 100
  }

  /** The length field agrees with the IV and body it announces. */
  predicate LengthConsistent(f: Fields)
  {
    f.length == HEADER_SIZE + |f.iv| + |f.data|
  }

  /** Store a new IV and body and recompute the length; over 9999 raises, after the assignment. */
  function StoreBody(f: Fields, iv: string, data: string): Step
  {
    var g := f.(iv := iv, data := data, length := HEADER_SIZE + |iv| + |data|);
    Step(g, if g.length > MAX_MESSAGE_SIZE then Some(TooLong) else None)
  }

  /** set_psk (lines 53-62); a Failure leaves every field as it was. */
  function AfterSetPsk(f: Fields, psk: string): (r: Result<Fields, Error>)
    ensures r.Success? <==> f.encoding != ENC_PLAIN && (f.encoding == ENC_AES_CBC ==> |psk| == PSK_256_SIZE)
    ensures f.encoding == ENC_PLAIN ==> r == Failure(PskNotSupported)
    ensures r.Success? ==> r.value.(psk := f.psk) == f
    ensures r.Success? && f.encoding == ENC_AES_CBC ==> r.value.psk == psk && |r.value.psk| == PSK_256_SIZE
    ensures r.Success? && f.encoding != ENC_AES_CBC ==> r.value == f
  {
    if f.encoding == ENC_PLAIN then Failure(PskNotSupported)
    else if f.encoding == ENC_AES_CBC then
      if |psk| != PSK_256_SIZE then Failure(BadPskLength) else Success(f.(psk := psk))
    else Success(f)
  }

  /**
   * set_data (lines 70-92), given the JSON text of the body and the 16 random
   * bytes Random.new().read would return.
   */
  function AfterSetData(f: Fields, json: string, rand: string, p: Primitives): (s: Step)
    requires |rand| == BLOCK_SIZE
    ensures s.fields.version == f.version && s.fields.encoding == f.encoding && s.fields.psk == f.psk
    ensures s.raised.None? || s.raised == Some(TooLong) ==> LengthConsistent(s.fields)
    ensures s.raised.None? ==> s.fields.length <= MAX_MESSAGE_SIZE
    ensures s.raised == Some(TooLong) ==> s.fields.length > MAX_MESSAGE_SIZE
    ensures f.encoding != ENC_AES_CBC ==> s.fields.data == json && s.fields.iv == ""
    ensures f.encoding != ENC_AES_CBC ==> (s.raised.None? <==> HEADER_SIZE + |json| <= MAX_MESSAGE_SIZE)
    ensures var key := p.b64decode(f.psk);
      f.encoding != ENC_AES_CBC || (key.Some? && KeySizeOk(key.value)) ==>
        && LengthConsistent(s.fields)
        && (s.raised.None? || s.raised == Some(TooLong))
        && (s.raised == Some(TooLong) <==> s.fields.length > MAX_MESSAGE_SIZE)
    ensures f.encoding == ENC_AES_CBC && p.b64decode(f.psk).None? ==> s.raised == Some(BadBase64)
    ensures f.encoding == ENC_AES_CBC && p.b64decode(f.psk).Some? && !KeySizeOk(p.b64decode(f.psk).value) ==>
      s.raised == Some(BadAesKey)
  {
    var g := f.(data := json, iv := "");
    if f.encoding == ENC_AES_CBC then
      match p.b64decode(f.psk)
      case None => Step(g, Some(BadBase64))
      case Some(key) =>
        if !KeySizeOk(key) then Step(g, Some(BadAesKey))
        else StoreBody(g, p.b64encode(rand), p.b64encode(p.encrypt(key, rand, Pad(json))))
    else
      StoreBody(g, "", json)
  }

  /**
   * get_data (lines 95-110) up to json.loads: the body text to parse, None for
   * an empty body, decrypted and stripped of '*' under AES-CBC.
   */
  function BodyText(f: Fields, p: Primitives): (r: Result<Option<string>, Error>)
    ensures r == Success(None) <==> f.data == ""
    ensures f.data != "" && f.encoding != ENC_AES_CBC ==> r == Success(Some(f.data))
    ensures r.Success? && r.value.Some? ==> r.value.value == [] || r.value.value[|r.value.value| - 1] != PAD_CHAR || f.encoding != ENC_AES_CBC
  {
    if f.data == "" then Success(None)
    else if f.encoding == ENC_AES_CBC then
      match (p.b64decode(f.psk), p.b64decode(f.iv))
      case (None, _) => Failure(BadBase64)
      case (_, None) => Failure(BadBase64)
      case (Some(key), Some(iv)) =>
        if !KeySizeOk(key) then Failure(BadAesKey)
        else if |iv| != BLOCK_SIZE then Failure(BadAesIv)
        else
          match p.b64decode(f.data)
          case None => Failure(BadBase64)
          case Some(ct) =>
            if |ct| % BLOCK_SIZE != 0 then Failure(BadCiphertextLength)
            else Success(Some(RStrip(p.decrypt(key, iv, ct))))
    else
      Success(Some(f.data))
  }

  /** dumps (lines 128-132). */
  function Serialize(f: Fields): (s: string)
    ensures |s| >= HEADER_SIZE + |f.iv| + |f.data|
    ensures s[|s| - |f.data|..] == f.data && s[|s| - |f.data| - |f.iv|..|s| - |f.data|] == f.iv
  {
    ZeroPad(f.length, LENGTH_FIELD_SIZE) + ZeroPad(f.version, VERSION_FIELD_SIZE)
      + ZeroPad(f.encoding, ENCODING_FIELD_SIZE) + f.iv + f.data
  }

  function Min(a: nat, b: nat): nat { if a <= b then a else b }

  /**
   * loads (lines 135-155). The fields are parsed in order and each is stored as
   * soon as it is read; nothing is validated, the IV is replaced only under
   * AES-CBC, and a short IV is whatever text remains.
   */
  function AfterLoads(f: Fields, msg: string): (s: Step)
    ensures |msg| < HEADER_SIZE ==> s == Step(f, Some(TooSmall))
    ensures s.raised.None? <==> |msg| >= HEADER_SIZE && AllDigits(msg[..HEADER_SIZE])
    ensures s.fields.psk == f.psk
    ensures s.raised.None? ==>
      && ParseNat(msg[0..4]) == Some(s.fields.length)
      && ParseNat(msg[4..6]) == Some(s.fields.version)
      && ParseNat(msg[6..8]) == Some(s.fields.encoding)
    ensures s.raised.None? && s.fields.encoding == ENC_AES_CBC ==>
      s.fields.iv + s.fields.data == msg[HEADER_SIZE..] && |s.fields.iv| == Min(IV_SIZE, |msg| - HEADER_SIZE)
    ensures s.raised.None? && s.fields.encoding != ENC_AES_CBC ==>
      s.fields.data == msg[HEADER_SIZE..] && s.fields.iv == f.iv
  {
    if |msg| < HEADER_SIZE then Step(f, Some(TooSmall))
    else
      match ParseNat(msg[0..4])
      case None => Step(f, Some(NotAnInteger))
      case Some(length) =>
        var f1 := f.(length := length);
        match ParseNat(msg[4..6])
        case None => Step(f1, Some(NotAnInteger))
        case Some(version) =>
          var f2 := f1.(version := version);
          match ParseNat(msg[6..8])
          case None => Step(f2, Some(NotAnInteger))
          case Some(encoding) =>
            var f3 := f2.(encoding := encoding);
            if encoding == ENC_AES_CBC then
              var ivEnd := HEADER_SIZE + Min(IV_SIZE, |msg| - HEADER_SIZE);
              Step(f3.(iv := msg[HEADER_SIZE..ivEnd], data := msg[ivEnd..]), None)
            else
              Step(f3.(data := msg[HEADER_SIZE..]), None)
  }

  /**
   * __init__ (lines 29-50). set_data runs while the encoding is still the
   * plaintext default, so a body given here is always stored as plain JSON
   * with an empty IV, even when AES-CBC is requested.
   */
  function Constructed(version: Option<int>, encoding: Option<int>, psk: Option<string>, data: Option<string>)
    : (r: Result<Fields, Error>)
    ensures r.Success? <==>
      && (data.Some? ==> HEADER_SIZE + |data.value| <= MAX_MESSAGE_SIZE)
      && (version.Some? ==> version.value == VER_1)
      && (encoding.Some? ==> encoding.value == ENC_PLAIN || encoding.value == ENC_AES_CBC)
      && (psk.Some? ==> encoding == Some(ENC_AES_CBC as int) && |psk.value| == PSK_256_SIZE)
    ensures version.Some? && version.value != VER_1 ==> r.Failure?
    ensures encoding.Some? && encoding.value != ENC_PLAIN && encoding.value != ENC_AES_CBC ==> r.Failure?
    ensures r.Success? ==>
      && r.value.version == VER_1
      && r.value.encoding == (if encoding.Some? then encoding.value else ENC_PLAIN)
      && r.value.data == (if data.Some? then data.value else "")
      && r.value.iv == ""
      && r.value.psk == (if psk.Some? then psk.value else "")
      && LengthConsistent(r.value) && r.value.length <= MAX_MESSAGE_SIZE
  {
    var s := if data.Some? then StoreBody(Defaults, "", data.value) else Step(Defaults, None);
    if s.raised.Some? then Failure(s.raised.value)
    else if version.Some? && version.value != VER_1 then Failure(UnsupportedVersion)
    else if encoding.Some? && encoding.value != ENC_PLAIN && encoding.value != ENC_AES_CBC then Failure(UnsupportedEncoding)
    else
      var f := s.fields.(encoding := if encoding.Some? then encoding.value as nat else ENC_PLAIN);
      if psk.Some? then AfterSetPsk(f, psk.value) else Success(f)
  }

  /** dumps writes exactly 8 header characters before the IV and body when the fields fit their widths. */
  lemma SerializeLength(f: Fields)
    ensures FitsWidths(f) ==> |Serialize(f)| == HEADER_SIZE + |f.iv| + |f.data|
    ensures FitsWidths(f) && LengthConsistent(f) ==> |Serialize(f)| == f.length
  {
    if FitsWidths(f) {
      assert Pow10(4) == 10000 && Pow10(2) == 100;
      ZeroPadWidth(f.length, LENGTH_FIELD_SIZE);
      ZeroPadWidth(f.version, VERSION_FIELD_SIZE);
      ZeroPadWidth(f.encoding, ENCODING_FIELD_SIZE);
    }
  }

  /**
   * loads(dumps()) restores length, version, encoding, IV and body, provided the
   * header fields fit their widths, an AES-CBC IV has its 24 characters and a
   * plaintext message carries no IV. The receiving object keeps its own key and,
   * for plaintext, its own IV.
   */
  lemma LoadsSerialize(f: Fields, g: Fields)
    requires FitsWidths(f)
    requires f.encoding == ENC_AES_CBC ==> |f.iv| == IV_SIZE
    requires f.encoding != ENC_AES_CBC ==> f.iv == ""
    ensures AfterLoads(g, Serialize(f))
         == Step(f.(psk := g.psk, iv := if f.encoding == ENC_AES_CBC then f.iv else g.iv), None)
  {
    assert Pow10(4) == 10000 && Pow10(2) == 100;
    ZeroPadWidth(f.length, 4);
    ZeroPadWidth(f.version, 2);
    ZeroPadWidth(f.encoding, 2);
    ParseZeroPad(f.length, 4);
    ParseZeroPad(f.version, 2);
    ParseZeroPad(f.encoding, 2);
    var a, b, c := ZeroPad(f.length, 4), ZeroPad(f.version, 2), ZeroPad(f.encoding, 2);
    HeaderSplit(a, b, c, f.iv, f.data);
  }

  /** Where the pieces of a dump sit: the three header fields, then the IV, then the body. */
  lemma HeaderSplit(a: string, b: string, c: string, iv: string, data: string)
    requires |a| == LENGTH_FIELD_SIZE && |b| == VERSION_FIELD_SIZE && |c| == ENCODING_FIELD_SIZE
    ensures var m := a + b + c + iv + data;
      && m[0..4] == a && m[4..6] == b && m[6..8] == c
      && m[..HEADER_SIZE] == a + b + c
      && m[HEADER_SIZE..] == iv + data
      && (|iv| == IV_SIZE ==> m[HEADER_SIZE..HEADER_SIZE + IV_SIZE] == iv && m[HEADER_SIZE + IV_SIZE..] == data)
  {
    var m := a + b + c + iv + data;
    assert m == (a + b + c) + (iv + data);
  }

  /**
   * A message whose set_data succeeded has a length field equal to the length
   * of its dump, and loading that dump into the same object changes nothing.
   */
  lemma SetDataWireRoundTrip(f: Fields, json: string, rand: string, p: Primitives)
    requires Sound(p) && |rand| == BLOCK_SIZE
    requires f.version < 100 && f.encoding < 100
    requires AfterSetData(f, json, rand, p).raised.None?
    ensures var g := AfterSetData(f, json, rand, p).fields;
      |Serialize(g)| == g.length && AfterLoads(g, Serialize(g)) == Step(g, None)
  {
    var g := AfterSetData(f, json, rand, p).fields;
    SerializeLength(g);
    if f.encoding == ENC_AES_CBC {
      assert |p.b64encode(rand)| == 4 * ((16 + 2) / 3) == IV_SIZE;
    }
    LoadsSerialize(g, g);
  }

  /**
   * get_data after a successful set_data returns the body text that was set:
   * exactly, in plaintext; under AES-CBC with its trailing '*' stripped, which
   * is the text itself whenever it does not end in '*' (see StripPad).
   */
  lemma SetDataThenBody(f: Fields, json: string, rand: string, p: Primitives)
    requires Sound(p) && |rand| == BLOCK_SIZE
    requires AfterSetData(f, json, rand, p).raised.None?
    ensures BodyText(AfterSetData(f, json, rand, p).fields, p)
         == if f.encoding == ENC_AES_CBC then Success(Some(RStrip(json)))
            else if json == "" then Success(None)
            else Success(Some(json))
  {
    if f.encoding == ENC_AES_CBC {
      var g := AfterSetData(f, json, rand, p).fields;
      var key := p.b64decode(f.psk).value;
      var ct := p.encrypt(key, rand, Pad(json));
      assert |ct| == |Pad(json)|;
      assert g.iv == p.b64encode(rand) && g.data == p.b64encode(ct);
      assert p.b64decode(g.iv) == Some(rand);
      assert p.b64decode(g.data) == Some(ct);
      assert |g.data| > 0;
      assert p.decrypt(key, rand, ct) == Pad(json);
      StripPad(json);
    }
  }

  /** The message object of avbmsg.py; each method is the step the source takes on these fields. */
  class AVBMessage {
    var length: nat
    var version: nat
    var encoding: nat
    var data: string
    var psk: string
    var iv: string

    function State(): Fields
      reads this
    {
      Fields(length, version, encoding, data, psk, iv)
    }

    /** The assignments at lines 31-36. */
    constructor ()
      ensures State() == Defaults
    {
      length, version, encoding := HEADER_SIZE, VER_1, ENC_PLAIN;
      data, psk, iv := "", "", "";
    }

    /**
     * __init__ with its optional arguments; an exception means no object.
     * set_data runs here while the encoding is still plaintext, so `rand` and
     * `p` are never used; they are taken only because set_data takes them.
     */
    static method Create(version: Option<int>, encoding: Option<int>, psk: Option<string>, data: Option<string>,
                         rand: string, p: Primitives)
      returns (r: Result<AVBMessage, Error>)
      requires |rand| == BLOCK_SIZE
      ensures r.Success? ==> fresh(r.value) && Constructed(version, encoding, psk, data) == Success(r.value.State())
      ensures r.Failure? ==> Constructed(version, encoding, psk, data) == Failure(r.error)
    {
      var m := new AVBMessage();
      if data.Some? {
        var raised := m.SetData(data.value, rand, p);
        if raised.Some? {
          return Failure(raised.value);
        }
      }
      if version.Some? {
        if version.value != VER_1 {
          return Failure(UnsupportedVersion);
        }
        m.version := version.value as nat;
      }
      if encoding.Some? {
        if encoding.value != ENC_PLAIN && encoding.value != ENC_AES_CBC {
          return Failure(UnsupportedEncoding);
        }
        m.encoding := encoding.value as nat;
      }
      if psk.Some? {
        var raised := m.SetPsk(psk.value);
        if raised.Some? {
          return Failure(raised.value);
        }
      }
      return Success(m);
    }

    method SetPsk(key: string) returns (raised: Option<Error>)
      modifies this
      ensures match AfterSetPsk(old(State()), key)
              case Success(g) => raised.None? && State() == g
              case Failure(e) => raised == Some(e) && State() == old(State())
    {
      if encoding == ENC_PLAIN {
        return Some(PskNotSupported);
      } else if encoding == ENC_AES_CBC {
        if |key| != PSK_256_SIZE {
          return Some(BadPskLength);
        }
        psk := key;
      }
      return None;
    }

    function GetPsk(): string
      reads this
    {
      psk
    }

    method SetData(json: string, rand: string, p: Primitives) returns (raised: Option<Error>)
      requires |rand| == BLOCK_SIZE
      modifies this
      ensures AfterSetData(old(State()), json, rand, p) == Step(State(), raised)
    {
      data := json;
      iv := "";
      if encoding == ENC_AES_CBC {
        var key := p.b64decode(psk);
        if key.None? {
          return Some(BadBase64);
        }
        if !KeySizeOk(key.value) {
          return Some(BadAesKey);
        }
        var enc := p.encrypt(key.value, rand, data + Stars(PadLength(|data|)));
        iv := p.b64encode(rand);
        data := p.b64encode(enc);
      }
      length := HEADER_SIZE + |iv| + |data|;
      if length > MAX_MESSAGE_SIZE {
        return Some(TooLong);
      }
      return None;
    }

    function GetData(p: Primitives): (r: Result<Option<string>, Error>)
      reads this
      ensures r == Success(None) <==> data == ""
    {
      BodyText(State(), p)
    }

    function Len(): nat
      reads this
    {
      length
    }

    /** When the header fields fit their widths, the dump is as long as the IV and body plus 8, which is Len() after set_data. */
    function Dumps(): (s: string)
      reads this
      ensures FitsWidths(State()) ==> |s| == HEADER_SIZE + |iv| + |data|
      ensures FitsWidths(State()) && LengthConsistent(State()) ==> |s| == Len()
    {
      SerializeLength(State());
      Serialize(State())
    }

    method Loads(msg: string) returns (raised: Option<Error>)
      modifies this
      ensures AfterLoads(old(State()), msg) == Step(State(), raised)
    {
      if |msg| < HEADER_SIZE {
        return Some(TooSmall);
      }
      var i := 0;
      var field := ParseNat(msg[i..LENGTH_FIELD_SIZE]);
      if field.None? {
        return Some(NotAnInteger);
      }
      length := field.value;
      i := i + LENGTH_FIELD_SIZE;
      field := ParseNat(msg[i..i + VERSION_FIELD_SIZE]);
      if field.None? {
        return Some(NotAnInteger);
      }
      version := field.value;
      i := i + VERSION_FIELD_SIZE;
      field := ParseNat(msg[i..i + ENCODING_FIELD_SIZE]);
      if field.None? {
        return Some(NotAnInteger);
      }
      encoding := field.value;
      i := i + ENCODING_FIELD_SIZE;

      if encoding == ENC_AES_CBC {
        iv := msg[i..Min(i + IV_SIZE, |msg|)];
        i := i + IV_SIZE;
      }
      data := if i <= |msg| then msg[i..] else "";
      return None;
    }
  }
}
