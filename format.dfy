/**
 * The text helpers of log/log.go: digit grouping (`formatWithCommas`), the
 * masking of an app id and a password in a URL (`maskAppID`), the plural
 * suffix and the decoding of hex-looking response bodies (`hexToTextOrNumber`).
 */
module Format {
  import opened Wrappers
  import opened Ints
  import Text
  import Relay

  // ---------------------------------------------------------------------------
  // Digit grouping (log/log.go:225-237)
  // ---------------------------------------------------------------------------

  /** A text with a comma before every complete group of three characters, counted from the right. */
  function Group(d: string): string
    decreases |d|
  {
    if |d| <= 3 then d else Group(d[..|d| - 3]) + [','] + d[|d| - 3..]
  }

  /** The text without its commas. */
  function RemoveCommas(s: string): string {
    if s == [] then [] else (if s[0] == ',' then [] else [s[0]]) + RemoveCommas(s[1..])
  }

  function CommaCount(s: string): nat {
    if s == [] then 0 else (if s[0] == ',' then 1 else 0) + CommaCount(s[1..])
  }

  lemma {:induction false} RemoveCommasAppend(a: string, b: string)
    ensures RemoveCommas(a + b) == RemoveCommas(a) + RemoveCommas(b)
    ensures CommaCount(a + b) == CommaCount(a) + CommaCount(b)
  {
    if a != [] {
      assert (a + b)[0] == a[0];
      assert (a + b)[1..] == a[1..] + b;
      RemoveCommasAppend(a[1..], b);
    } else {
      assert a + b == b;
    }
  }

  lemma {:induction false} NoCommas(s: string)
    requires ',' !in s
    ensures RemoveCommas(s) == s && CommaCount(s) == 0
  {
    if s != [] {
      assert s == [s[0]] + s[1..];
      NoCommas(s[1..]);
    }
  }

  /** Grouping only inserts commas: removing them gives the digits back, and there are `(d - 1) / 3` of them. */
  lemma {:induction false} GroupDigits(d: string)
    requires ',' !in d
    ensures RemoveCommas(Group(d)) == d
    ensures |d| >= 1 ==> CommaCount(Group(d)) == (|d| - 1) / 3
    decreases |d|
  {
    if |d| <= 3 {
      NoCommas(d);
    } else {
      var a, b := d[..|d| - 3], d[|d| - 3..];
      assert d == a + b;
      GroupDigits(a);
      CommaThenGroup(Group(a), b);
      assert (|d| - 1) / 3 == (|a| - 1) / 3 + 1;
    }
  }

  /** A comma and then a comma-free group: the comma goes, the group stays. */
  lemma CommaThenGroup(g: string, b: string)
    requires ',' !in b
    ensures RemoveCommas(g + [','] + b) == RemoveCommas(g) + b
    ensures CommaCount(g + [','] + b) == CommaCount(g) + 1
  {
    NoCommas(b);
    RemoveCommasAppend(g + [','], b);
    RemoveCommasAppend(g, [',']);
    OneComma();
    assert RemoveCommas(g) + [] == RemoveCommas(g);
  }

  lemma OneComma()
    ensures RemoveCommas([',']) == [] && CommaCount([',']) == 1
  {
    assert [','][1..] == [];
  }

  /** Between the commas: a leading group of one to three characters, then groups of exactly three. */
  lemma {:induction false} GroupPieces(d: string)
    requires ',' !in d && |d| >= 1
    ensures var ps := Text.Split(Group(d), ',');
      && |ps| == (|d| - 1) / 3 + 1
      && 1 <= |ps[0]| <= 3
      && forall i :: 1 <= i < |ps| ==> |ps[i]| == 3
    decreases |d|
  {
    if |d| <= 3 {
      Text.SplitNoSep(d, ',');
    } else {
      var a, b := d[..|d| - 3], d[|d| - 3..];
      assert ',' !in a && ',' !in b by {
        assert forall c :: c in a ==> c in d;
        assert forall c :: c in b ==> c in d;
      }
      GroupPieces(a);
      Text.SplitSnoc(Group(a), ',', b);
    }
  }

  /** The text the grouping loop has built after its first `k` characters. */
  function Emitted(input: string, k: nat): string
    requires k <= |input|
  {
    if k == 0 then []
    else Emitted(input, k - 1) + (if k - 1 > 0 && (|input| - (k - 1)) % 3 == 0 then [','] else []) + [input[k - 1]]
  }

  /** Appending a multiple of three characters does not move the commas already emitted. */
  lemma {:induction false} EmittedPrefix(a: string, b: string, k: nat)
    requires |b| % 3 == 0 && k <= |a|
    ensures Emitted(a + b, k) == Emitted(a, k)
  {
    if k > 0 {
      EmittedPrefix(a, b, k - 1);
      assert (a + b)[k - 1] == a[k - 1];
      assert (|a + b| - (k - 1)) % 3 == (|a| - (k - 1)) % 3;
    }
  }

  lemma {:induction false} EmittedShort(input: string, k: nat)
    requires k <= |input| <= 3
    ensures Emitted(input, k) == input[..k]
  {
    if k > 0 {
      EmittedShort(input, k - 1);
      assert input[..k] == input[..k - 1] + [input[k - 1]];
    }
  }

  /** The loop's output is the right-to-left grouping of its input. */
  lemma {:induction false} EmittedIsGroup(input: string)
    ensures Emitted(input, |input|) == Group(input)
    decreases |input|
  {
    if |input| <= 3 {
      EmittedShort(input, |input|);
      assert input[..|input|] == input;
    } else {
      var n := |input|;
      var a, b := input[..n - 3], input[n - 3..];
      assert input == a + b;
      EmittedPrefix(a, b, n - 3);
      EmittedIsGroup(a);
      EmittedLastGroup(input);
    }
  }

  /** The loop's last three steps write a comma and then the last three characters. */
  lemma EmittedLastGroup(input: string)
    requires |input| > 3
    ensures var n := |input|; Emitted(input, n) == Emitted(input, n - 3) + [','] + input[n - 3..]
  {
    var n := |input|;
    EmittedComma(input, n - 2);
    EmittedPlain(input, n - 1);
    EmittedPlain(input, n);
    Regroup(Emitted(input, n - 3), Emitted(input, n - 2), Emitted(input, n - 1), Emitted(input, n), input[n - 3..]);
  }

  /** A step with a multiple of three characters still to go writes a comma before its character. */
  lemma EmittedComma(input: string, k: nat)
    requires 1 < k <= |input| && (|input| - (k - 1)) % 3 == 0
    ensures Emitted(input, k) == Emitted(input, k - 1) + [','] + [input[k - 1]]
  {
  }

  /** Any other step writes just its character. */
  lemma EmittedPlain(input: string, k: nat)
    requires 0 < k <= |input| && (k == 1 || (|input| - (k - 1)) % 3 != 0)
    ensures Emitted(input, k) == Emitted(input, k - 1) + [input[k - 1]]
  {
  }

  lemma Regroup(e0: string, e1: string, e2: string, e3: string, b: string)
    requires |b| == 3 && e1 == e0 + [','] + [b[0]] && e2 == e1 + [b[1]] && e3 == e2 + [b[2]]
    ensures e3 == e0 + [','] + b
  {
    assert b == [b[0]] + [b[1]] + [b[2]];
  }

  /**
   * `formatWithCommas` as written: it groups the whole decimal text, sign
   * included, so for a negative number whose digit count is a multiple of
   * three a comma lands right after the minus sign.
   */
  method FormatWithCommas(number: Int64) returns (s: string)
    ensures s == Group(Text.Itoa(number))
    ensures number >= 0 ==> s == FormatCommas(number)
  {
    var input := Text.Itoa(number);
    var out: string := [];
    for i := 0 to |input|
      invariant out == Emitted(input, i)
    {
      if i > 0 && (|input| - i) % 3 == 0 {
        out := out + [','];
      }
      out := out + [input[i]];
    }
    EmittedIsGroup(input);
    s := out;
  }

  /** The grouping of `-123` as written: `-,123`. */
  lemma NegativeGroupingAsWritten()
    ensures Text.Itoa(-123) == "-123"
    ensures Group(Text.Itoa(-123)) == "-,123"
  {
    assert Text.NatDigits(1, 10) == "1";
    assert Text.NatDigits(12, 10) == "12";
    assert Text.NatDigits(123, 10) == "123";
    assert "-123"[..1] == "-";
  }

  /** Digit grouping as intended: the sign stays in front and only the digits are grouped. */
  function FormatCommas(n: int): (s: string)
    ensures n < 0 <==> (s != [] && s[0] == '-')
  {
    var d := Text.NatDigits(if n < 0 then -n else n, 10);
    GroupLeads(d);
    assert d[0] in d;
    if n < 0 then "-" + Group(d) else Group(d)
  }

  /** The intended grouping never puts a comma first or right after the sign, and reads back as the number. */
  lemma FormatCommasReadsBack(n: int)
    requires MinInt64 <= n <= MaxInt64
    ensures var s := FormatCommas(n);
      && s != [] && s[0] != ','
      && (n < 0 ==> |s| >= 2 && s[1] != ',')
      && RemoveCommas(s) == Text.Itoa(n)
      && Text.Atoi(RemoveCommas(s)) == Some(n)
  {
    var d := Text.NatDigits(if n < 0 then -n else n, 10);
    GroupDigits(d);
    GroupPieces(d);
    GroupLeads(d);
    if n < 0 {
      RemoveCommasAppend("-", Group(d));
      assert RemoveCommas("-") == "-";
    }
    Text.AtoiItoa(n);
  }

  /** The first character of a grouping is the first character of the text. */
  lemma {:induction false} GroupLeads(d: string)
    requires |d| >= 1
    ensures |Group(d)| >= 1 && Group(d)[0] == d[0]
    decreases |d|
  {
    if |d| > 3 {
      GroupLeads(d[..|d| - 3]);
    }
  }

  /** For `-123` the intended grouping is `-123`. */
  lemma NegativeGroupingIntended()
    ensures FormatCommas(-123) == "-123"
  {
    assert Text.NatDigits(1, 10) == "1";
    assert Text.NatDigits(12, 10) == "12";
    assert Text.NatDigits(123, 10) == "123";
  }

  // ---------------------------------------------------------------------------
  // Masking (log/log.go:240-279)
  // ---------------------------------------------------------------------------

  /** `url.Userinfo`: a user name and, maybe, a password. */
  datatype UserInfo = UserInfo(username: string, password: Option<string>)

  /** The parts of a parsed `url.URL` that `maskAppID` reads. */
  datatype URL = URL(scheme: string, user: Option<UserInfo>, host: string, path: string)

  const Mask: string := "******"

  /** The segments of the masked path: the last one replaced by the mask when it is eight characters long. */
  function MaskedSegments(path: string): (ms: seq<string>)
    ensures |ms| == |Text.Split(path, '/')|
    ensures forall i :: 0 <= i < |ms| ==> '/' !in ms[i]
  {
    var parts := Text.Split(path, '/');
    var last := |parts| - 1;
    var masked := if |parts[last]| == 8 then Mask else parts[last];
    var ms := parts[..last] + [masked];
    assert forall i :: 0 <= i < last ==> ms[i] == parts[i];
    ms
  }

  /** The path with its last `/`-separated segment replaced by the mask when that segment is eight characters long. */
  function MaskPath(path: string): string {
    Text.Join(MaskedSegments(path), '/')
  }

  /**
   * Only the last segment can change, and only an eight-character one, which
   * becomes the mask; the number of segments is kept.
   */
  lemma MaskPathSegments(path: string)
    ensures Text.Split(MaskPath(path), '/') == MaskedSegments(path)
    ensures var ps := Text.Split(path, '/');
            var ms := Text.Split(MaskPath(path), '/');
      && |ms| == |ps|
      && (forall i :: 0 <= i < |ps| - 1 ==> ms[i] == ps[i])
      && ms[|ps| - 1] == (if |ps[|ps| - 1]| == 8 then Mask else ps[|ps| - 1])
  {
    Text.SplitJoin(MaskedSegments(path), '/');
  }

  /** Masking a path twice changes nothing more: the mask is not eight characters long. */
  lemma MaskPathIdempotent(path: string)
    ensures MaskPath(MaskPath(path)) == MaskPath(path)
  {
    var ms := MaskedSegments(path);
    MaskPathSegments(path);
    assert MaskedSegments(MaskPath(path)) == ms by {
      assert ms[..|ms| - 1] + [ms[|ms| - 1]] == ms;
    }
  }

  lemma Join3(a: string, b: string, c: string, sep: char)
    ensures Text.Join([a, b, c], sep) == a + [sep] + b + [sep] + c
  {
    assert [a, b, c][1..] == [b, c];
    assert [b, c][1..] == [c];
    assert Text.Join([c], sep) == c;
    assert Text.Join([b, c], sep) == b + [sep] + c;
  }

  /** The path of a Portal URL: an eight-character app id is masked, any other is shown. */
  lemma MaskPortalPath(appID: string)
    requires '/' !in appID
    ensures |appID| == 8 ==> MaskPath("/v1/" + appID) == "/v1/" + Mask
    ensures |appID| != 8 ==> MaskPath("/v1/" + appID) == "/v1/" + appID
  {
    var path := "/v1/" + appID;
    assert path == ("" + ['/'] + "v1") + ['/'] + appID;
    Text.SplitSnoc("" + ['/'] + "v1", '/', appID);
    Text.SplitSnoc("", '/', "v1");
    var parts := Text.Split(path, '/');
    assert parts == ["", "v1", appID];
    var masked := if |appID| == 8 then Mask else appID;
    assert MaskedSegments(path) == ["", "v1", masked];
    Join3("", "v1", masked, '/');
    assert "" + ['/'] + "v1" + ['/'] + masked == "/v1/" + masked;
  }

  /**
   * `maskAppID`: when the text parses (`parsed` is what `url.Parse` gave), the
   * URL is rebuilt from scheme, user, host and masked path, a present
   * password replaced by the mask; otherwise the text is returned unchanged.
   */
  function MaskAppID(raw: string, parsed: Option<URL>): (masked: string)
    ensures parsed.None? ==> masked == raw
    ensures parsed.Some? ==> Text.HasPrefix(masked, parsed.value.scheme + "://")
    ensures parsed.Some? && parsed.value.user.None? ==>
      var u := parsed.value;
      masked == u.scheme + "://" + u.host + MaskPath(u.path)
    ensures parsed.Some? && parsed.value.user.Some? && parsed.value.user.value.password.Some? ==>
      var u := parsed.value;
      masked == u.scheme + "://" + u.user.value.username + ":" + Mask + "@" + u.host + MaskPath(u.path)
    ensures parsed.Some? && parsed.value.user.Some? && parsed.value.user.value.password.None? ==>
      var u := parsed.value;
      masked == u.scheme + "://" + u.user.value.username + "@" + u.host + MaskPath(u.path)
  {
    match parsed
    case None => raw
    case Some(u) =>
      var userPart :=
        match u.user
        case None => ""
        case Some(info) => if info.password.Some? then info.username + ":" + Mask + "@" else info.username + "@";
      var prefix := u.scheme + "://";
      assert Text.HasPrefix(prefix + (userPart + u.host + MaskPath(u.path)), prefix);
      prefix + (userPart + u.host + MaskPath(u.path))
  }

  /** The password never reaches the output: any two passwords give the same masked text. */
  lemma MaskHidesPassword(raw1: string, raw2: string, u: URL, name: string, p1: string, p2: string)
    ensures MaskAppID(raw1, Some(u.(user := Some(UserInfo(name, Some(p1))))))
            == MaskAppID(raw2, Some(u.(user := Some(UserInfo(name, Some(p2))))))
  {
  }

  /** The Portal URL of a production run is shown with its app id masked. */
  lemma MaskPortalURL(chain: string, appID: string)
    requires '/' !in appID && |appID| == 8
    ensures MaskAppID(Relay.BuildURL(false, Relay.EnvProd, chain, appID),
                      Some(URL("https", None, chain + ".rpc.grove.city", "/v1/" + appID)))
            == "https://" + chain + ".rpc.grove.city" + "/v1/" + Mask
  {
    var u := URL("https", None, chain + ".rpc.grove.city", "/v1/" + appID);
    var m := MaskAppID(Relay.BuildURL(false, Relay.EnvProd, chain, appID), Some(u));
    assert m == "https" + "://" + u.host + MaskPath(u.path);
    MaskPortalPath(appID);
  }

  // ---------------------------------------------------------------------------
  // Plural suffix (log/log.go:282-287)
  // ---------------------------------------------------------------------------

  /** `suffixBasedOnLength`: "s" exactly for counts above one. */
  function SuffixBasedOnLength(count: int): (s: string)
    ensures s == "s" <==> count > 1
    ensures s == "" <==> count <= 1
  {
    if count > 1 then "s" else ""
  }

  // ---------------------------------------------------------------------------
  // Hex decoding (log/log.go:291-310)
  // ---------------------------------------------------------------------------

  type Byte = x: int | 0 <= x < 256

  /** `hex.DecodeString`: an even number of hex digits of either case, two per byte. */
  function HexDecode(s: string): (r: Option<seq<Byte>>)
    ensures r.Some? <==> |s| % 2 == 0 && Text.AllDigits(s, 16)
    ensures r.Some? ==> |r.value| == |s| / 2
    decreases |s|
  {
    if |s| % 2 != 0 || !Text.AllDigits(s, 16) then None
    else if s == [] then Some([])
    else
      var b: Byte := Text.DigitValue(s[0]) * 16 + Text.DigitValue(s[1]);
      assert Text.AllDigits(s[2..], 16) by {
        forall i | 0 <= i < |s[2..]| ensures Text.IsDigitIn(s[2..][i], 16) {
          assert s[2..][i] == s[i + 2];
        }
      }
      Some([b] + HexDecode(s[2..]).value)
  }

  /** Byte `i` of a decoding is the value of digit pair `i`, the high digit first. */
  lemma {:induction false} HexDecodeBytes(s: string)
    requires HexDecode(s).Some?
    ensures forall i :: 0 <= i < |s| / 2 ==>
      HexDecode(s).value[i] == Text.DigitValue(s[2 * i]) * 16 + Text.DigitValue(s[2 * i + 1])
    decreases |s|
  {
    if s != [] {
      var r := HexDecode(s).value;
      var rest := HexDecode(s[2..]).value;
      assert r == [Text.DigitValue(s[0]) * 16 + Text.DigitValue(s[1])] + rest;
      HexDecodeBytes(s[2..]);
      forall i | 1 <= i < |s| / 2
        ensures r[i] == Text.DigitValue(s[2 * i]) * 16 + Text.DigitValue(s[2 * i + 1])
      {
        assert r[i] == rest[i - 1];
        assert s[2..][2 * (i - 1)] == s[2 * i] && s[2..][2 * (i - 1) + 1] == s[2 * i + 1];
      }
    }
  }

  /** Upper-case digits decode like lower-case ones: "FF" is the byte 255. */
  lemma HexDecodeFF()
    ensures HexDecode("FF") == Some([255])
  {
    var s := "FF";
    assert Text.IsDigitIn(s[0], 16) && Text.IsDigitIn(s[1], 16);
    assert Text.AllDigits(s, 16);
    var r := HexDecode(s);
    HexDecodeBytes(s);
    assert |r.value| == 1;
    assert r.value[0] == Text.DigitValue('F') * 16 + Text.DigitValue('F') == 255;
    assert r.value == [255];
  }

  /** `hex.EncodeToString`: two lower-case digits per byte. */
  function HexEncode(bs: seq<Byte>): (s: string)
    ensures |s| == 2 * |bs|
    ensures Text.AllDigits(s, 16)
  {
    if bs == [] then [] else [Text.DigitChar(bs[0] / 16), Text.DigitChar(bs[0] % 16)] + HexEncode(bs[1..])
  }

  /** Decoding an encoding gives the bytes back. */
  lemma {:induction false} HexRoundTrip(bs: seq<Byte>)
    ensures HexDecode(HexEncode(bs)) == Some(bs)
  {
    if bs != [] {
      var s := HexEncode(bs);
      assert s[2..] == HexEncode(bs[1..]);
      HexRoundTrip(bs[1..]);
      assert s[0] == Text.DigitChar(bs[0] / 16) && s[1] == Text.DigitChar(bs[0] % 16);
      assert Text.DigitValue(s[0]) * 16 + Text.DigitValue(s[1]) == bs[0];
      assert HexDecode(s) == Some([bs[0]] + HexDecode(s[2..]).value);
      assert bs == [bs[0]] + bs[1..];
    }
  }

  /** `string(bytes)`: each byte as one character. */
  function BytesToText(bs: seq<Byte>): (t: string)
    ensures |t| == |bs|
    ensures forall i :: 0 <= i < |bs| ==> t[i] as int == bs[i]
  {
    if bs == [] then [] else [bs[0] as char] + BytesToText(bs[1..])
  }

  /** What `hexToTextOrNumber` works on: the text without surrounding quotes and without a leading `0x`. */
  function TrimHex(hexStr: string): string {
    Text.TrimPrefix(Text.TrimChar(hexStr, '"'), "0x")
  }

  /**
   * `hexToTextOrNumber`: a base-16 int64 is shown as `formatWithCommas`
   * writes it (so a negative one may get a comma after its sign); failing
   * that, hex-encoded bytes are shown as text; failing both, the input comes
   * back unchanged with `false`.
   */
  function HexToTextOrNumber(hexStr: string): (r: (string, bool))
    ensures var t := TrimHex(hexStr);
      && (Text.ParseInt(t, 16).Some? ==> r == (Group(Text.Itoa(Text.ParseInt(t, 16).value)), true))
      && (Text.ParseInt(t, 16).None? && HexDecode(t).Some? ==> r == (BytesToText(HexDecode(t).value), true))
      && (r.1 <==> Text.ParseInt(t, 16).Some? || HexDecode(t).Some?)
      && (!r.1 ==> r.0 == hexStr)
  {
    var trimmed := TrimHex(hexStr);
    match Text.ParseInt(trimmed, 16)
    case Some(num) => (Group(Text.Itoa(num)), true)
    case None =>
      match HexDecode(trimmed)
      case Some(bytes) => (BytesToText(bytes), true)
      case None => (hexStr, false)
  }

  /**
   * `hexToTextOrNumber` with the intended digit grouping: a number keeps its
   * sign in front of the grouped digits. It differs from the function as
   * written only on negative numbers.
   */
  function HexToTextOrNumberIntended(hexStr: string): (r: (string, bool))
    ensures var p := Text.ParseInt(TrimHex(hexStr), 16);
      && (p.Some? ==> r == (FormatCommas(p.value), true))
      && (p.Some? && p.value >= 0 ==> r == HexToTextOrNumber(hexStr))
      && (p.None? ==> r == HexToTextOrNumber(hexStr))
  {
    match Text.ParseInt(TrimHex(hexStr), 16)
    case Some(num) => (FormatCommas(num), true)
    case None => HexToTextOrNumber(hexStr)
  }

  /** Surrounding quotes come off, and nothing else, when the text inside starts and ends with something else. */
  lemma TrimQuotes(inner: string)
    requires inner != [] && inner[0] != '"' && inner[|inner| - 1] != '"'
    ensures Text.TrimChar("\"" + inner + "\"", '"') == inner
  {
    var s := "\"" + inner + "\"";
    assert s[1..] == inner + "\"";
    var t := inner + "\"";
    assert s[0] == '"';
    assert Text.TrimChar(s, '"') == Text.TrimChar(t, '"');
    assert t[0] == inner[0] && t[|t| - 1] == '"';
    assert t[..|t| - 1] == inner;
    assert Text.TrimChar(t, '"') == Text.TrimChar(inner, '"');
  }

  /** A quoted hex quantity, as JSON-RPC results carry them, is shown as its decimal value grouped by commas. */
  lemma HexQuantity(n: nat)
    requires n <= MaxInt64
    ensures HexToTextOrNumber("\"0x" + Text.NatDigits(n, 16) + "\"") == (FormatCommas(n), true)
    ensures RemoveCommas(HexToTextOrNumber("\"0x" + Text.NatDigits(n, 16) + "\"").0) == Text.Itoa(n)
  {
    FormatCommasReadsBack(n);
    QuotedHexTrimmed(Text.NatDigits(n, 16));
    HexDigitsParsed(n);
  }

  /** Trimming the quotes and the `0x` of a quoted hex quantity leaves its digits. */
  lemma QuotedHexTrimmed(digits: string)
    requires digits != [] && Text.AllDigits(digits, 16)
    ensures TrimHex("\"0x" + digits + "\"") == digits
  {
    assert !Text.IsDigitIn('"', 16);
    var inner := "0x" + digits;
    assert inner[|inner| - 1] == digits[|digits| - 1];
    TrimQuotes(inner);
    assert "\"0x" + digits + "\"" == "\"" + inner + "\"";
    assert inner[..2] == "0x";
  }

  /** The base-16 digits of an int64 value parse back to it. */
  lemma HexDigitsParsed(n: nat)
    requires n <= MaxInt64
    ensures Text.ParseInt(Text.NatDigits(n, 16), 16) == Some(n)
  {
    var digits := Text.NatDigits(n, 16);
    assert digits[0] in digits;
    Text.NatDigitsValue(n, 16);
  }

  /** An empty body after trimming decodes to the empty text (`hex.DecodeString("")` succeeds). */
  lemma EmptyHexIsText()
    ensures HexToTextOrNumber("0x") == ("", true)
  {
    assert Text.HasPrefix("0x", "0x");
  }

  /** A negative hex number is shown as `formatWithCommas` groups it: `-7b` as `-,123`. */
  lemma NegativeHexShown()
    ensures HexToTextOrNumber("-7b") == ("-,123", true)
  {
    NegativeHexTrimmed();
    NegativeHexParsed();
    NegativeGroupingAsWritten();
  }

  /** With the intended grouping, `-7b` is shown as `-123`. */
  lemma NegativeHexIntended()
    ensures HexToTextOrNumberIntended("-7b") == ("-123", true)
  {
    NegativeHexTrimmed();
    NegativeHexParsed();
    NegativeGroupingIntended();
  }

  lemma NegativeHexTrimmed()
    ensures TrimHex("-7b") == "-7b"
  {
    var s := "-7b";
    assert forall i :: 0 <= i < |s| ==> s[i] != '"';
    assert Text.TrimChar(s, '"') == s;
    assert s[..2] != "0x";
  }

  lemma NegativeHexParsed()
    ensures Text.ParseInt("-7b", 16) == Some(-123)
  {
    var s := "-7b";
    assert s[0] == '-' && s[1..] == "7b";
    assert Text.AllDigits("7b", 16);
    assert "7b"[..1] == "7" && "7"[..0] == [];
    assert Text.DigitsValue("7", 16) == 7;
    assert Text.DigitsValue("7b", 16) == 123;
  }
}
