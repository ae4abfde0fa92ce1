/** The audio codec helpers of App.tsx: `encode` and `decode` move bytes to
    and from base64 text through a binary string (one character per byte)
    and the browser's `btoa` and `atob`, and `decodeAudioData` reads 16-bit
    little-endian PCM into per-channel samples in [-1, 1).

    `btoa` is the base64 encoding of section 4 of RFC 4648 with padding;
    `atob` is the HTML standard's forgiving base64 decode: ASCII white space
    is dropped, one or two trailing `=` are dropped from a text whose length
    is a multiple of four, a length of one more than a multiple of four or a
    character outside the alphabet fails, and a trailing group of two or
    three characters yields one or two bytes. */
module Codec {
  import opened Wrappers

  type byte = x: int | 0 <= x < 256
  type sextet = x: int | 0 <= x < 64

  // ----- The alphabet -----

  /** The character of a 6-bit value in the base64 alphabet. */
  function CharOf(v: sextet): (c: char)
    ensures c != '=' && !AsciiWhitespace(c)
  {
    if v < 26 then ('A' as int + v) as char
    else if v < 52 then ('a' as int + (v - 26)) as char
    else if v < 62 then ('0' as int + (v - 52)) as char
    else if v == 62 then '+'
    else '/'
  }

  /** The value of a character of the base64 alphabet; none for any other
      character. */
  function ValueOf(c: char): Option<sextet>
  {
    if 'A' <= c <= 'Z' then Some(c as int - 'A' as int)
    else if 'a' <= c <= 'z' then Some(c as int - 'a' as int + 26)
    else if '0' <= c <= '9' then Some(c as int - '0' as int + 52)
    else if c == '+' then Some(62)
    else if c == '/' then Some(63)
    else None
  }

  /** `CharOf` and `ValueOf` are inverse: the alphabet has 64 distinct
      characters and nothing else has a value. */
  lemma AlphabetBijection(v: sextet, c: char)
    ensures ValueOf(CharOf(v)) == Some(v)
    ensures ValueOf(c).Some? ==> CharOf(ValueOf(c).value) == c
  {
  }

  // ----- Encoding -----

  /** The 6-bit groups of `b`: four per three bytes, and two or three for a
      final group of one or two bytes whose missing bits are zero. */
  function Sextets(b: seq<byte>): seq<sextet>
  {
    if |b| == 0 then []
    else if |b| == 1 then [b[0] / 4, (b[0] % 4) * 16]
    else if |b| == 2 then [b[0] / 4, (b[0] % 4) * 16 + b[1] / 16, (b[1] % 16) * 4]
    else [b[0] / 4, (b[0] % 4) * 16 + b[1] / 16, (b[1] % 16) * 4 + b[2] / 64, b[2] % 64] + Sextets(b[3..])
  }

  /** Four sextets per whole group of three bytes, then two or three for a
      last group of one or two; never one more than a multiple of four. */
  lemma {:induction false} SextetsLength(b: seq<byte>)
    ensures |Sextets(b)| == 4 * (|b| / 3) + [0, 2, 3][|b| % 3]
    ensures |Sextets(b)| % 4 != 1
  {
    if |b| >= 3 {
      SextetsLength(b[3..]);
      assert |b| / 3 == |b[3..]| / 3 + 1 && |b| % 3 == |b[3..]| % 3;
    }
  }

  function Chars(vs: seq<sextet>): (s: string)
    ensures |s| == |vs| && forall i | 0 <= i < |vs| :: s[i] == CharOf(vs[i])
  {
    seq(|vs|, i requires 0 <= i < |vs| => CharOf(vs[i]))
  }

  /** The `=` that fill the last group to four characters. */
  function Padding(n: nat): string
  {
    if n % 3 == 1 then "==" else if n % 3 == 2 then "=" else ""
  }

  /** Base64 with padding: the text is four characters per started group of
      three bytes. */
  function EncodeBase64(b: seq<byte>): (s: string)
    ensures |s| == 4 * (|b| / 3) + (if |b| % 3 == 0 then 0 else 4)
  {
    SextetsLength(b);
    Chars(Sextets(b)) + Padding(|b|)
  }

  // ----- Decoding -----

  /** The bytes of a sequence of 6-bit groups: three per four, and one or two
      for a final group of two or three, whose surplus bits are dropped (a
      lone final sextet holds no whole byte). */
  function DecodeSextets(vs: seq<sextet>): seq<byte>
  {
    if |vs| <= 1 then []
    else
      var v0, v1 := vs[0] as int, vs[1] as int;
      if |vs| == 2 then [v0 * 4 + v1 / 16]
      else
        var v2 := vs[2] as int;
        if |vs| == 3 then [v0 * 4 + v1 / 16, (v1 % 16) * 16 + v2 / 4]
        else [v0 * 4 + v1 / 16, (v1 % 16) * 16 + v2 / 4, (v2 % 4) * 64 + vs[3] as int] + DecodeSextets(vs[4..])
  }

  /** Three bytes per four sextets, rounded down. */
  lemma {:induction false} DecodedLength(vs: seq<sextet>)
    ensures |DecodeSextets(vs)| == 3 * |vs| / 4
  {
    if |vs| >= 4 {
      DecodedLength(vs[4..]);
      assert 3 * |vs| / 4 == 3 * |vs[4..]| / 4 + 3;
    }
  }

  /** The bytes come back from their 6-bit groups. */
  lemma {:induction false} DecodeSextetsInverse(b: seq<byte>)
    ensures DecodeSextets(Sextets(b)) == b
  {
    if |b| >= 3 {
      DecodeSextetsInverse(b[3..]);
      assert b == b[..3] + b[3..];
    }
  }

  /** ASCII white space as the forgiving decoder drops it. */
  predicate AsciiWhitespace(c: char)
  {
    c == '\t' || c == '\n' || c == '\U{0C}' || c == '\r' || c == ' '
  }

  function StripWhitespace(s: string): (r: string)
    ensures |r| <= |s|
    ensures forall i | 0 <= i < |r| :: !AsciiWhitespace(r[i])
    ensures (forall i | 0 <= i < |s| :: !AsciiWhitespace(s[i])) ==> r == s
  {
    if s == [] then []
    else (if AsciiWhitespace(s[0]) then [] else [s[0]]) + StripWhitespace(s[1..])
  }

  /** One or two trailing `=` are dropped when the length is a multiple of
      four. */
  function StripPadding(s: string): (r: string)
    ensures |r| <= |s| && r == s[..|r|] && s[|r|..] in {"", "=", "=="}
    ensures |r| < |s| <==> |s| % 4 == 0 && |s| >= 1 && s[|s| - 1] == '='
  {
    if |s| % 4 == 0 && |s| >= 2 && s[|s| - 2] == '=' && s[|s| - 1] == '=' then
      assert s[|s| - 2..] == "==";
      s[..|s| - 2]
    else if |s| % 4 == 0 && |s| >= 1 && s[|s| - 1] == '=' then
      assert s[|s| - 1..] == "=";
      s[..|s| - 1]
    else
      assert s[|s|..] == "";
      s
  }

  /** The values of a text made only of alphabet characters. */
  function Values(s: string): (r: Option<seq<sextet>>)
    ensures r.Some? <==> forall i | 0 <= i < |s| :: ValueOf(s[i]).Some?
    ensures r.Some? ==> |r.value| == |s| && forall i | 0 <= i < |s| :: ValueOf(s[i]) == Some(r.value[i])
  {
    if forall i | 0 <= i < |s| :: ValueOf(s[i]).Some? then
      Some(seq(|s|, i requires 0 <= i < |s| => ValueOf(s[i]).value))
    else None
  }

  /** The forgiving base64 decode. */
  function DecodeBase64(s: string): (r: Option<seq<byte>>)
    ensures var data := StripPadding(StripWhitespace(s));
      r.None? <==> (|data| % 4 == 1 || exists i | 0 <= i < |data| :: ValueOf(data[i]).None?)
  {
    var data := StripPadding(StripWhitespace(s));
    if |data| % 4 == 1 then None
    else match Values(data)
      case None => None
      case Some(vs) => Some(DecodeSextets(vs))
  }

  /** White space is ignored wherever it stands: decoding the text is
      decoding it with the white space removed. */
  lemma DecodeIgnoresWhitespace(s: string)
    ensures DecodeBase64(s) == DecodeBase64(StripWhitespace(s))
  {
    var t := StripWhitespace(s);
    assert StripWhitespace(t) == t;
  }

  /** Encoded text holds no white space, and stripping its padding leaves
      exactly the alphabet characters. */
  lemma StripEncoded(b: seq<byte>)
    ensures StripPadding(StripWhitespace(EncodeBase64(b))) == Chars(Sextets(b))
  {
    EncodedHasNoWhitespace(b);
    EncodedPadding(b);
  }

  lemma EncodedHasNoWhitespace(b: seq<byte>)
    ensures StripWhitespace(EncodeBase64(b)) == EncodeBase64(b)
  {
    var s := EncodeBase64(b);
    assert forall i | 0 <= i < |s| :: !AsciiWhitespace(s[i]);
  }

  lemma EncodedPadding(b: seq<byte>)
    ensures StripPadding(EncodeBase64(b)) == Chars(Sextets(b))
  {
    var text, pad := Chars(Sextets(b)), Padding(|b|);
    PaddedGroups(b);
    assert |text| > 0 ==> text[|text| - 1] != '=';
    StripPaddingAfter(text, pad);
  }

  /** The characters of the sextets and the padding fill whole groups of
      four. */
  lemma PaddedGroups(b: seq<byte>)
    ensures (|Chars(Sextets(b))| + |Padding(|b|)|) % 4 == 0
  {
    SextetsLength(b);
    var k, total := |b| / 3, |Chars(Sextets(b))| + |Padding(|b|)|;
    if |b| % 3 == 0 {
      assert total == 4 * k;
      QuarterOf(total, k);
    } else {
      assert total == 4 * (k + 1);
      QuarterOf(total, k + 1);
    }
  }

  /** Four times a count leaves no remainder by four. */
  lemma QuarterOf(total: nat, groups: nat)
    requires total == 4 * groups
    ensures total % 4 == 0
  {
  }

  /** Padding that completes a group of four is dropped, and only it. */
  lemma StripPaddingAfter(text: string, pad: string)
    requires pad == "" || pad == "=" || pad == "=="
    requires (|text| + |pad|) % 4 == 0
    requires |text| > 0 ==> text[|text| - 1] != '='
    ensures StripPadding(text + pad) == text
  {
    var s := text + pad;
    if pad == "=" {
      assert s[..|s| - 1] == text;
    } else if pad == "==" {
      assert s[..|s| - 2] == text;
    } else {
      assert s == text;
    }
  }

  /** Reading the values of encoded characters gives back the 6-bit groups. */
  lemma ValuesOfChars(vs: seq<sextet>)
    ensures Values(Chars(vs)) == Some(vs)
  {
    var text := Chars(vs);
    forall i | 0 <= i < |text|
      ensures ValueOf(text[i]) == Some(vs[i])
    {
      AlphabetBijection(vs[i], text[i]);
    }
    var w := Values(text);
    assert forall i | 0 <= i < |vs| :: w.value[i] == vs[i];
    assert w.value == vs;
  }

  /** Decoding what was encoded gives back the bytes. */
  lemma DecodeEncode(b: seq<byte>)
    ensures DecodeBase64(EncodeBase64(b)) == Some(b)
  {
    var vs := Sextets(b);
    SextetsLength(b);
    StripEncoded(b);
    ValuesOfChars(vs);
    DecodeSextetsInverse(b);
  }

  /** The test vectors of section 10 of RFC 4648 of up to two bytes. */
  lemma Rfc4648ShortVectors()
    ensures EncodeBase64([]) == ""
    ensures EncodeBase64([102]) == "Zg=="
    ensures EncodeBase64([102, 111]) == "Zm8="
  {
  }

  /** The test vectors of section 10 of RFC 4648 of three and four bytes. */
  lemma Rfc4648LongVectors()
    ensures EncodeBase64([102, 111, 111]) == "Zm9v"
    ensures EncodeBase64([102, 111, 111, 98]) == "Zm9vYg=="
  {
    assert Sextets([102, 111, 111, 98]) == [25, 38, 61, 47] + Sextets([98]);
  }

  /** The decoder reads the groups of an alphabet-only text. */
  lemma DecodeVector(s: string, vs: seq<sextet>)
    requires |s| % 4 != 1 && |vs| == |s|
    requires forall i | 0 <= i < |s| :: !AsciiWhitespace(s[i]) && s[i] != '=' && ValueOf(s[i]) == Some(vs[i])
    ensures DecodeBase64(s) == Some(DecodeSextets(vs))
  {
    if |s| > 0 {
      assert s[|s| - 1] != '=';
    }
    var w := Values(s);
    assert forall i | 0 <= i < |vs| :: w.value[i] == vs[i];
    assert w.value == vs;
  }

  /** A whole group decodes to its three bytes. */
  lemma WholeGroupVector()
    ensures DecodeBase64("Zm9v") == Some([102, 111, 111])
  {
    var s, vs := "Zm9v", [25, 38, 61, 47];
    assert s[0] == 'Z' && s[1] == 'm' && s[2] == '9' && s[3] == 'v';
    DecodeVector(s, vs);
    FooGroupBytes();
  }

  /** The four sextets of "foo" give back its three bytes. */
  lemma FooGroupBytes()
    ensures DecodeSextets([25, 38, 61, 47]) == [102, 111, 111]
  {
    var vs: seq<sextet> := [25, 38, 61, 47];
    assert vs[4..] == [];
  }

  /** The decoder skips white space. */
  lemma WhiteSpaceVector()
    ensures DecodeBase64("Zm 9v\n") == Some([102, 111, 111])
  {
    WholeGroupVector();
    DecodeIgnoresWhitespace("Zm 9v\n");
    SpacedGroup();
  }

  lemma SpacedGroup()
    ensures StripWhitespace("Zm 9v\n") == "Zm9v"
  {
    assert "Zm 9v\n" == "Zm " + "9v\n";
    StripAppend("Zm ", "9v\n");
    assert StripWhitespace("Zm ") == "Zm";
    assert StripWhitespace("9v\n") == "9v";
  }

  /** White space is removed piece by piece. */
  lemma {:induction false} StripAppend(s: string, t: string)
    ensures StripWhitespace(s + t) == StripWhitespace(s) + StripWhitespace(t)
  {
    if s == [] {
      assert s + t == t;
    } else {
      var head := if AsciiWhitespace(s[0]) then [] else [s[0]];
      assert (s + t)[0] == s[0] && (s + t)[1..] == s[1..] + t;
      StripAppend(s[1..], t);
      assert StripWhitespace(s + t) == head + (StripWhitespace(s[1..]) + StripWhitespace(t));
    }
  }

  /** The decoder accepts a last group without its padding. */
  lemma UnpaddedVector()
    ensures DecodeBase64("Zg") == Some([102])
  {
    DecodeVector("Zg", [25, 32]);
    assert DecodeSextets([25, 32]) == [102];
  }

  /** A lone character, or one outside the alphabet, is refused. */
  lemma RefusedVectors()
    ensures DecodeBase64("Z").None? && DecodeBase64("Zm9!").None?
  {
    assert StripPadding(StripWhitespace("Z")) == "Z";
    var bad := "Zm9!";
    assert forall i | 0 <= i < 4 :: !AsciiWhitespace(bad[i]);
    assert StripPadding(bad) == bad;
    assert ValueOf(bad[3]).None?;
  }

  // ----- Binary strings -----

  /** The binary string of `b`: one character per byte, of that code. */
  function Latin1(b: seq<byte>): (s: string)
    ensures |s| == |b| && forall i | 0 <= i < |b| :: s[i] as int == b[i]
  {
    seq(|b|, i requires 0 <= i < |b| => b[i] as char)
  }

  /** `btoa`: a character above U+00FF fails; otherwise the base64 text of
      the character codes. */
  function Btoa(s: string): (r: Option<string>)
    ensures r.None? <==> exists i | 0 <= i < |s| :: s[i] as int >= 256
  {
    if forall i | 0 <= i < |s| :: s[i] as int < 256 then
      Some(EncodeBase64(seq(|s|, i requires 0 <= i < |s| => s[i] as int)))
    else None
  }

  /** `atob`: the binary string of the decoded bytes. */
  function Atob(s: string): (r: Option<string>)
    ensures r.None? <==> DecodeBase64(s).None?
    ensures r.Some? ==> r.value == Latin1(DecodeBase64(s).value)
  {
    match DecodeBase64(s)
    case None => None
    case Some(b) => Some(Latin1(b))
  }

  /** A binary string never makes `btoa` fail, and `atob` undoes it. */
  lemma BinaryRoundTrip(b: seq<byte>)
    ensures Btoa(Latin1(b)) == Some(EncodeBase64(b))
    ensures Atob(EncodeBase64(b)) == Some(Latin1(b))
  {
    var s := Latin1(b);
    assert seq(|s|, i requires 0 <= i < |s| => s[i] as int) == b;
    DecodeEncode(b);
  }

  /** `encode(bytes)`: the bytes as a binary string, then `btoa`. */
  method Encode(bytes: array<byte>) returns (s: string)
    ensures s == EncodeBase64(bytes[..])
  {
    var binary := "";
    for i := 0 to bytes.Length
      invariant binary == Latin1(bytes[..i])
    {
      binary := binary + [bytes[i] as char];
    }
    assert bytes[..bytes.Length] == bytes[..];
    BinaryRoundTrip(bytes[..]);
    var r := Btoa(binary);
    s := r.value;
  }

  /** `decode(base64)`: `atob`, then each character code stored into a new
      byte array, which keeps the code modulo 256. A text `atob` refuses
      gives no array. */
  method Decode(base64: string) returns (r: Option<array<byte>>)
    ensures r.None? <==> DecodeBase64(base64).None?
    ensures r.Some? ==> fresh(r.value) && r.value[..] == DecodeBase64(base64).value
  {
    var binary := Atob(base64);
    if binary.None? {
      return None;
    }
    var bytes := StoreCodes(binary.value);
    assert bytes[..] == DecodeBase64(base64).value;
    return Some(bytes);
  }

  /** A new byte array holding each character code of `text` modulo 256. */
  method StoreCodes(text: string) returns (bytes: array<byte>)
    ensures fresh(bytes) && bytes.Length == |text|
    ensures forall i | 0 <= i < |text| :: bytes[i] == (text[i] as int) % 256
  {
    bytes := new byte[|text|];
    for i := 0 to |text|
      invariant forall j | 0 <= j < i :: bytes[j] == (text[j] as int) % 256
    {
      bytes[i] := (text[i] as int) % 256;
    }
  }

  /** What `decode` and `encode` promise together. */
  method DecodeAfterEncode(bytes: array<byte>) returns (copy: Option<array<byte>>)
    ensures copy.Some? && copy.value[..] == bytes[..]
  {
    var text := Encode(bytes);
    DecodeEncode(bytes[..]);
    copy := Decode(text);
  }

  // ----- 16-bit PCM -----

  /** Sample `k` of `data` read as a signed 16-bit little-endian integer,
      the layout of an `Int16Array` view on the platforms the app runs on. */
  function Int16At(data: seq<byte>, k: nat): (x: int)
    requires 2 * k + 1 < |data|
    ensures -32768 <= x < 32768
  {
    var u := data[2 * k] as int + 256 * data[2 * k + 1] as int;
    if u >= 32768 then u - 65536 else u
  }

  /** The two bytes of a signed 16-bit sample, low byte first. The
      microphone conversion that writes samples is not modelled; this writer
      is kept only as a check on `Int16At`, through `Int16RoundTrip`. */
  function Int16Bytes(x: int): (b: seq<byte>)
    requires -32768 <= x < 32768
    ensures |b| == 2
  {
    var u := if x < 0 then x + 65536 else x;
    [u % 256, u / 256]
  }

  /** Reading and writing a sample are inverse. */
  lemma Int16RoundTrip(x: int, lo: byte, hi: byte)
    requires -32768 <= x < 32768
    ensures Int16At(Int16Bytes(x), 0) == x
    ensures Int16Bytes(Int16At([lo, hi], 0)) == [lo, hi]
  {
  }

  /** The samples of `data`, two bytes each. */
  function Samples(data: seq<byte>): (s: seq<int>)
    requires |data| % 2 == 0
    ensures |s| == |data| / 2
    ensures forall k | 0 <= k < |s| :: s[k] == Int16At(data, k)
  {
    seq(|data| / 2, k requires 0 <= k < |data| / 2 => Int16At(data, k))
  }

  /** `sample / 32768.0`: every sample lands in [-1, 1). */
  function Normalize(x: int): (r: real)
    ensures -32768 <= x < 32768 ==> -1.0 <= r < 1.0
    ensures x < 0 <==> r < 0.0
  {
    x as real / 32768.0
  }

  lemma {:induction false} MulMono(a: int, b: int, n: nat)
    ensures a <= b ==> a * n <= b * n
  {
    if n > 0 {
      MulMono(a, b, n - 1);
      assert a * n == a * (n - 1) + a && b * n == b * (n - 1) + b;
    }
  }

  /** Frame `i` of channel `c` is inside the samples. */
  lemma FrameIndex(i: nat, c: nat, n: nat, len: nat)
    requires c < n && i < len / n
    ensures i * n + c < len
  {
    MulMono(i + 1, len / n, n);
    assert (i + 1) * n == i * n + n;
  }

  /** Channel `c` of samples interleaved over `n` channels: every `n`-th
      sample from the `c`-th, one per whole frame. */
  function Channel(samples: seq<int>, n: nat, c: nat): (ch: seq<int>)
    requires c < n
    ensures |ch| == |samples| / n
  {
    seq(|samples| / n, i requires 0 <= i < |samples| / n =>
      FrameIndex(i, c, n, |samples|);
      samples[i * n + c])
  }

  /** De-interleaving loses nothing but a partial last frame: every sample of
      a whole frame is found in channel `k % n` at frame `k / n`. */
  lemma EverySampleOnce(samples: seq<int>, n: nat, k: nat)
    requires n >= 1 && k < (|samples| / n) * n
    ensures k % n < n && k / n < |samples| / n
    ensures Channel(samples, n, k % n)[k / n] == samples[k]
    ensures |samples| - (|samples| / n) * n < n
  {
    MulMono(|samples| / n, k / n, n);
    assert (k / n) * n + k % n == k;
  }

  /** The sample the decoding loop reads for frame `i` of channel `c`. */
  lemma SampleOfFrame(data: seq<byte>, n: nat, c: nat, i: nat)
    requires |data| % 2 == 0 && c < n && i < |data| / 2 / n
    ensures 2 * (i * n + c) + 1 < |data|
    ensures Int16At(data, i * n + c) == Channel(Samples(data), n, c)[i]
  {
    FrameIndex(i, c, n, |data| / 2);
  }

  /** The errors of the buffer construction: an odd byte count cannot be
      viewed as 16-bit samples, and a buffer needs a channel and a frame. */
  datatype AudioError = RangeError | NotSupportedError

  /** An audio buffer: its sample rate and one row of samples per channel. */
  datatype AudioBuffer = AudioBuffer(sampleRate: real, channels: array2<real>)

  /** `decodeAudioData(data, ctx, sampleRate, numChannels)`. */
  method DecodeAudioData(data: array<byte>, sampleRate: real, numChannels: nat)
    returns (r: Result<AudioBuffer, AudioError>)
    ensures data.Length % 2 == 1 ==> r == Failure(RangeError)
    ensures data.Length % 2 == 0 && (numChannels == 0 || data.Length / 2 / numChannels == 0) ==>
      r == Failure(NotSupportedError)
    ensures data.Length % 2 == 0 && numChannels >= 1 && data.Length / 2 / numChannels >= 1 ==> r.Success?
    ensures r.Success? ==>
      var buf := r.value.channels;
      && data.Length % 2 == 0 && numChannels >= 1
      && fresh(buf) && r.value.sampleRate == sampleRate
      && buf.Length0 == numChannels && buf.Length1 == data.Length / 2 / numChannels
      && forall c, i | 0 <= c < numChannels && 0 <= i < buf.Length1 ::
           buf[c, i] == Normalize(Channel(Samples(data[..]), numChannels, c)[i])
  {
    if data.Length % 2 == 1 {
      return Failure(RangeError);
    }
    if numChannels == 0 || data.Length / 2 / numChannels == 0 {
      return Failure(NotSupportedError);
    }
    ghost var samples := Samples(data[..]);
    var frames := data.Length / 2 / numChannels;
    var buf := new real[numChannels, frames];
    for c := 0 to numChannels
      invariant forall c', i | 0 <= c' < c && 0 <= i < frames ::
        buf[c', i] == Normalize(Channel(samples, numChannels, c')[i])
    {
      for i := 0 to frames
        invariant forall c', i' | 0 <= c' < c && 0 <= i' < frames ::
          buf[c', i'] == Normalize(Channel(samples, numChannels, c')[i'])
        invariant forall i' | 0 <= i' < i :: buf[c, i'] == Normalize(Channel(samples, numChannels, c)[i'])
      {
        var k := i * numChannels + c;
        SampleOfFrame(data[..], numChannels, c, i);
        var x := Int16At(data[..], k);
        buf[c, i] := Normalize(x);
      }
    }
    return Success(AudioBuffer(sampleRate, buf));
  }

  /** Two little-endian samples, the most negative and the most positive,
      on one channel. */
  method ExtremeSamples() returns (first: real, second: real)
    ensures first == -1.0 && second == 32767.0 / 32768.0
  {
    var data := new byte[4];
    data[0], data[1], data[2], data[3] := 0x00, 0x80, 0xFF, 0x7F;
    var r := DecodeAudioData(data, 24000.0, 1);
    assert data[..] == [0x00, 0x80, 0xFF, 0x7F];
    assert Samples(data[..]) == [-32768, 32767];
    var buf := r.value.channels;
    first, second := buf[0, 0], buf[0, 1];
  }
}
