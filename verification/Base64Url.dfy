/** Unpadded base64url (RFC 4648, section 5 with the padding omitted): the encoder, and the two
    decoders of the system, which tolerate different malformed texts. */
module Base64Url {
  import opened Common

  type Byte = x: int | 0 <= x < 256
  type Sextet = x: int | 0 <= x < 64

  // ---- Bits and characters (RFC 4648, section 4) ----

  function CharOf(v: Sextet): char {
    if v < 26 then ('A' as int + v) as char
    else if v < 52 then ('a' as int + v - 26) as char
    else if v < 62 then ('0' as int + v - 52) as char
    else if v == 62 then '+' else '/'
  }

  function SextetOf(c: char): Option<Sextet> {
    if 'A' <= c <= 'Z' then Some(c as int - 'A' as int)
    else if 'a' <= c <= 'z' then Some(c as int - 'a' as int + 26)
    else if '0' <= c <= '9' then Some(c as int - '0' as int + 52)
    else if c == '+' then Some(62)
    else if c == '/' then Some(63)
    else None
  }

  function Group(a: Byte, b: Byte, c: Byte): seq<Sextet> {
    [a / 4, a % 4 * 16 + b / 16, b % 16 * 4 + c / 64, c % 64]
  }

  /** Six bits at a time; the last group is filled up with zero bits. */
  function Sextets(raw: seq<Byte>): seq<Sextet> {
    if raw == [] then []
    else if |raw| == 1 then [raw[0] / 4, raw[0] % 4 * 16]
    else if |raw| == 2 then [raw[0] / 4, raw[0] % 4 * 16 + raw[1] / 16, raw[1] % 16 * 4]
    else Group(raw[0], raw[1], raw[2]) + Sextets(raw[3..])
  }

  function First(a: Sextet, b: Sextet): Byte { a as int * 4 + b as int / 16 }

  function Second(b: Sextet, c: Sextet): Byte { b as int % 16 * 16 + c as int / 4 }

  function Third(c: Sextet, d: Sextet): Byte { c as int % 4 * 64 + d as int }

  function Triple(a: Sextet, b: Sextet, c: Sextet, d: Sextet): seq<Byte> {
    [First(a, b), Second(b, c), Third(c, d)]
  }

  /** Eight bits at a time; left-over bits are dropped. */
  function Bytes(v: seq<Sextet>): seq<Byte> {
    if |v| < 2 then []
    else if |v| == 2 then [First(v[0], v[1])]
    else if |v| == 3 then [First(v[0], v[1]), Second(v[1], v[2])]
    else Triple(v[0], v[1], v[2], v[3]) + Bytes(v[4..])
  }

  function Chars(v: seq<Sextet>): string {
    if v == [] then "" else [CharOf(v[0])] + Chars(v[1..])
  }

  /** The sextets of the characters that stand for one. */
  function Values(text: string): seq<Sextet> {
    if text == "" then []
    else
      var v, rest := SextetOf(text[0]), Values(text[1..]);
      if v.Some? then [v.value] + rest else rest
  }

  predicate InAlphabet(text: string) {
    forall i :: 0 <= i < |text| ==> SextetOf(text[i]).Some?
  }

  function Padding(n: nat): string { seq(n, _ => '=') }

  /** -n % 4, with Python's non-negative remainder. */
  function Missing(n: int): (m: nat)
    ensures m < 4 && (n + m) % 4 == 0
  {
    (-n) % 4
  }

  function EncodePadded(raw: seq<Byte>): string {
    var body := Chars(Sextets(raw));
    body + Padding(Missing(|body|))
  }

  // ---- The URL alphabet ----

  function UrlChar(c: char): char {
    if c == '+' then '-' else if c == '/' then '_' else c
  }

  function StdChar(c: char): char {
    if c == '-' then '+' else if c == '_' then '/' else c
  }

  function ToUrl(text: string): string {
    seq(|text|, i requires 0 <= i < |text| => UrlChar(text[i]))
  }

  function ToStd(text: string): string {
    seq(|text|, i requires 0 <= i < |text| => StdChar(text[i]))
  }

  function StripPadding(text: string): string {
    if text != "" && text[|text| - 1] == '=' then StripPadding(text[..|text| - 1]) else text
  }

  function Encode(raw: seq<Byte>): string {
    StripPadding(ToUrl(EncodePadded(raw)))
  }

  /** Both decoders translate the text and fill it up to a multiple of four. */
  function Padded(text: string): string {
    ToStd(text) + Padding(Missing(|text|))
  }

  // ---- Python ----

  predicate Ascii(text: string) {
    forall i :: 0 <= i < |text| ==> text[i] as int < 128
  }

  function Prepend(head: seq<Byte>, tail: Option<seq<Byte>>): Option<seq<Byte>> {
    if tail.None? then None else Some(head + tail.value)
  }

  /** `binascii.a2b_base64` in its non-strict mode: other characters are skipped, the first
      complete padding ends the text. `quad` is the unfinished group, `pads` the '=' since then. */
  function Scan(text: string, quad: seq<Sextet>, pads: nat): Option<seq<Byte>>
    requires |quad| < 4
  {
    if text == "" then if quad == [] then Some([]) else None
    else if text[0] == '=' then
      if |quad| < 2 then Scan(text[1..], quad, pads)
      else if |quad| + pads + 1 >= 4 then Some(Bytes(quad))
      else Scan(text[1..], quad, pads + 1)
    else if SextetOf(text[0]).None? then Scan(text[1..], quad, pads)
    else
      var more := quad + [SextetOf(text[0]).value];
      if |more| < 4 then Scan(text[1..], more, 0) else Prepend(Bytes(more), Scan(text[1..], [], 0))
  }

  /** A string with other than ASCII characters is refused before decoding. */
  function PyDecode(text: string): Option<seq<Byte>> {
    if Ascii(text) then Scan(Padded(text), [], 0) else None
  }

  // ---- JavaScript ----

  predicate IsSpace(c: char) { c in "\t\n\U{0C}\r " }

  datatype Kind = Letter | LetterOrFill | NotSpace {
    predicate Has(c: char) {
      match this
      case Letter => SextetOf(c).Some?
      case LetterOrFill => SextetOf(c).Some? || c == '='
      case NotSpace => !IsSpace(c)
    }
  }

  /** The characters of one kind, in order. */
  function Filter(text: string, kind: Kind): string {
    if text == "" then ""
    else if kind.Has(text[0]) then [text[0]] + Filter(text[1..], kind) else Filter(text[1..], kind)
  }

  function Compact(text: string): string { Filter(text, NotSpace) }

  /** Without one or two trailing '=' when the length is a multiple of four. */
  function DropFill(text: string): string {
    if |text| % 4 != 0 || text == "" || text[|text| - 1] != '=' then text
    else if text[|text| - 2] == '=' then text[..|text| - 2] else text[..|text| - 1]
  }

  /** `atob`: the forgiving-base64 decode of the WHATWG Infra Standard, section 7. */
  function Forgiving(data: string): Option<seq<Byte>> {
    var body := DropFill(Compact(data));
    if |body| % 4 == 1 || !InAlphabet(body) then None else Some(Bytes(Values(body)))
  }

  /** JavaScript measures a text in UTF-16 units. Only texts with characters that `atob` refuses
      have another length in characters. */
  function JsDecode(text: string): Option<seq<Byte>> {
    Forgiving(Padded(text))
  }

  function Replace(text: string, from: char, to: char): string {
    seq(|text|, i requires 0 <= i < |text| => if text[i] == from then to else text[i])
  }

  function BinaryString(bytes: seq<Byte>): string {
    seq(|bytes|, i requires 0 <= i < |bytes| => bytes[i] as char)
  }

  /** `atob` yields a string with one character per byte, or throws. */
  function Atob(data: string): Option<string> {
    var bytes := Forgiving(data);
    if bytes.None? then None else Some(BinaryString(bytes.value))
  }

  method FillUp(text: string) returns (s: string)
    ensures s == text + Padding(Missing(|text|))
  {
    s := text;
    while |s| % 4 != 0
      invariant |text| <= |s| <= |text| + Missing(|text|) && s == text + Padding(|s| - |text|)
      decreases |text| + 4 - |s|
    {
      s := s + "=";
    }
  }

  /** Null stands for the exception `atob` throws. */
  method B64UrlToBytes(text: string) returns (out: array?<Byte>)
    ensures out == null <==> JsDecode(text).None?
    ensures out != null ==> out[..] == JsDecode(text).value
  {
    var s := Replace(Replace(text, '-', '+'), '_', '/');
    assert s == ToStd(text);
    s := FillUp(s);
    var bin := Atob(s);
    if bin.None? {
      return null;
    }
    out := new Byte[|bin.value|];
    for i := 0 to |bin.value|
      invariant forall j :: 0 <= j < i ==> out[j] == JsDecode(text).value[j]
    {
      out[i] := bin.value[i] as int;
    }
  }

  // ---- Encoding ----

  lemma CharRoundTrip(v: Sextet)
    ensures SextetOf(CharOf(v)) == Some(v) && StdChar(UrlChar(CharOf(v))) == CharOf(v)
    ensures UrlChar(CharOf(v)) as int < 128 && UrlChar(CharOf(v)) !in "=."
  {
  }

  function SextetCount(n: nat): (count: nat)
    ensures count % 4 != 1
  {
    n / 3 * 4 + if n % 3 == 0 then 0 else n % 3 + 1
  }

  lemma FirstBits(a: Byte, x: int)
    requires 0 <= x < 16
    ensures First(a / 4, a % 4 * 16 + x) == a
  {
  }

  lemma SecondBits(b: Byte, x: int, y: int)
    requires 0 <= x < 4 && 0 <= y < 4
    ensures Second(x * 16 + b / 16, b % 16 * 4 + y) == b
  {
    assert (x * 16 + b / 16) % 16 == b / 16;
  }

  lemma ThirdBits(c: Byte, x: int)
    requires 0 <= x < 16
    ensures Third(x * 4 + c / 64, c % 64) == c
  {
    assert (x * 4 + c / 64) % 4 == c / 64;
  }

  lemma BytesOfFour(v: seq<Sextet>)
    requires |v| == 4
    ensures Bytes(v) == [First(v[0], v[1]), Second(v[1], v[2]), Third(v[2], v[3])]
  {
    assert v[4..] == [];
  }

  lemma GroupRoundTrip(a: Byte, b: Byte, c: Byte)
    ensures Bytes(Group(a, b, c)) == [a, b, c]
  {
    BytesOfFour(Group(a, b, c));
    FirstBits(a, b / 16);
    SecondBits(b, a % 4, c / 64);
    ThirdBits(c, b % 16);
  }

  lemma ShortRoundTrip(raw: seq<Byte>)
    requires 0 < |raw| < 3
    ensures Bytes(Sextets(raw)) == raw && |Sextets(raw)| == SextetCount(|raw|)
  {
    var b := if |raw| > 1 then raw[1] else 0;
    FirstBits(raw[0], b / 16);
    SecondBits(b, raw[0] % 4, 0);
  }

  lemma BytesUnfold(v: seq<Sextet>)
    requires |v| >= 4
    ensures Bytes(v) == Triple(v[0], v[1], v[2], v[3]) + Bytes(v[4..])
  {
  }

  lemma Assemble(head: seq<Byte>, a: seq<Byte>, b: seq<Byte>)
    ensures head + (a + b) == (head + a) + b
  {
  }

  lemma {:induction false} BytesAppend(a: seq<Sextet>, b: seq<Sextet>)
    requires |a| % 4 == 0
    ensures Bytes(a + b) == Bytes(a) + Bytes(b)
    decreases |a|
  {
    if |a| == 0 {
      assert a + b == b && Bytes(a) + Bytes(b) == Bytes(b);
    } else {
      var all := a + b;
      BytesAppend(a[4..], b);
      assert all[4..] == a[4..] + b;
      assert all[0] == a[0] && all[1] == a[1] && all[2] == a[2] && all[3] == a[3];
      BytesUnfold(a);
      BytesUnfold(all);
      Assemble(Triple(a[0], a[1], a[2], a[3]), Bytes(a[4..]), Bytes(b));
    }
  }

  lemma {:induction false} BytesOfSextets(raw: seq<Byte>)
    ensures Bytes(Sextets(raw)) == raw && |Sextets(raw)| == SextetCount(|raw|)
  {
    if |raw| >= 3 {
      BytesOfSextets(raw[3..]);
      GroupRoundTrip(raw[0], raw[1], raw[2]);
      BytesAppend(Group(raw[0], raw[1], raw[2]), Sextets(raw[3..]));
      assert raw == [raw[0], raw[1], raw[2]] + raw[3..];
    } else if raw != [] {
      ShortRoundTrip(raw);
    }
  }

  lemma {:induction false} CharsSpell(v: seq<Sextet>)
    ensures InAlphabet(Chars(v)) && |Chars(v)| == |v| && Values(Chars(v)) == v
  {
    if v != [] {
      CharsSpell(v[1..]);
      CharRoundTrip(v[0]);
    }
  }

  /** Characters of the encoding proper: neither padding nor the token separator. */
  predicate Plain(text: string) {
    forall c :: c in text ==> c !in "=."
  }

  lemma {:induction false} StripFill(text: string, n: nat)
    requires Plain(text)
    ensures StripPadding(text + Padding(n)) == text
  {
    if n == 0 {
      assert text + Padding(0) == text;
      assert text != "" ==> text[|text| - 1] in text;
    } else {
      assert (text + Padding(n))[..|text| + n - 1] == text + Padding(n - 1);
      StripFill(text, n - 1);
    }
  }

  lemma {:induction false} UrlBody(text: string)
    requires InAlphabet(text)
    ensures Plain(ToUrl(text)) && Ascii(ToUrl(text)) && ToStd(ToUrl(text)) == text
  {
    forall i | 0 <= i < |text| ensures StdChar(UrlChar(text[i])) == text[i] && UrlChar(text[i]) !in "=." {
      assert SextetOf(text[i]).Some?;
    }
  }

  /** An encoding holds neither '=' nor '.', spends four characters on three bytes, two or three
      on a rest of one or two, and filling it up restores the padded text. */
  lemma {:induction false} EncodingShape(raw: seq<Byte>)
    ensures Plain(Encode(raw)) && Ascii(Encode(raw)) && |Encode(raw)| == SextetCount(|raw|)
    ensures Padded(Encode(raw)) == EncodePadded(raw)
  {
    var body := Chars(Sextets(raw));
    BytesOfSextets(raw);
    CharsSpell(Sextets(raw));
    UrlBody(body);
    assert ToUrl(EncodePadded(raw)) == ToUrl(body) + Padding(Missing(|body|));
    StripFill(ToUrl(body), Missing(|body|));
  }

  // ---- What the scan makes of letters followed by padding ----

  lemma {:induction false} ScanFilter(text: string, kind: Kind, quad: seq<Sextet>, pads: nat)
    requires |quad| < 4 && kind != Letter
    ensures Scan(Filter(text, kind), quad, pads) == Scan(text, quad, pads)
  {
    if text != "" {
      var rest := Filter(text[1..], kind);
      if kind.Has(text[0]) { assert ([text[0]] + rest)[1..] == rest; }
      if text[0] == '=' {
        ScanFilter(text[1..], kind, quad, if |quad| < 2 then pads else pads + 1);
      } else if SextetOf(text[0]).None? {
        ScanFilter(text[1..], kind, quad, pads);
      } else {
        var more := quad + [SextetOf(text[0]).value];
        ScanFilter(text[1..], kind, if |more| < 4 then more else [], 0);
      }
    }
  }

  function Whole(n: nat): nat { n - n % 4 }

  lemma FirstGroup(group: seq<Sextet>, others: seq<Sextet>)
    requires |group| == 4
    ensures var all := group + others;
            && all[Whole(|all|)..] == others[Whole(|others|)..]
            && Bytes(all[..Whole(|all|)]) == Bytes(group) + Bytes(others[..Whole(|others|)])
  {
    var all := group + others;
    assert Whole(|all|) == 4 + Whole(|others|);
    assert all[..Whole(|all|)] == group + others[..Whole(|others|)];
    BytesAppend(group, others[..Whole(|others|)]);
  }

  lemma PrependTwice(a: seq<Byte>, b: seq<Byte>, tail: Option<seq<Byte>>)
    ensures Prepend(a, Prepend(b, tail)) == Prepend(a + b, tail)
  {
    if tail.Some? { assert a + (b + tail.value) == a + b + tail.value; }
  }

  lemma PrependNothing(tail: Option<seq<Byte>>)
    ensures Prepend(Bytes([]), tail) == tail
  {
    if tail.Some? { assert [] + tail.value == tail.value; }
  }

  lemma {:induction false} ScanLetters(body: string, tail: string, quad: seq<Sextet>)
    requires InAlphabet(body) && |quad| < 4
    ensures var all := quad + Values(body);
            Scan(body + tail, quad, 0) == Prepend(Bytes(all[..Whole(|all|)]), Scan(tail, all[Whole(|all|)..], 0))
  {
    var all := quad + Values(body);
    if body == "" {
      assert body + tail == tail && all == quad;
      assert all[..0] == [] && all[0..] == quad;
      PrependNothing(Scan(tail, quad, 0));
    } else {
      var more := quad + [SextetOf(body[0]).value];
      assert (body + tail)[0] == body[0] && (body + tail)[1..] == body[1..] + tail;
      assert all == more + Values(body[1..]);
      if |more| < 4 {
        ScanLetters(body[1..], tail, more);
      } else {
        var others := Values(body[1..]);
        ScanLetters(body[1..], tail, []);
        assert [] + others == others;
        FirstGroup(more, others);
        PrependTwice(Bytes(more), Bytes(others[..Whole(|others|)]), Scan(tail, others[Whole(|others|)..], 0));
      }
    }
  }

  lemma {:induction false} ScanFill(n: nat, quad: seq<Sextet>, pads: nat)
    requires |quad| + pads < 4
    ensures Scan(Padding(n), quad, pads) ==
            if quad == [] then Some([])
            else if |quad| >= 2 && |quad| + pads + n >= 4 then Some(Bytes(quad)) else None
  {
    if n > 0 {
      assert Padding(n)[1..] == Padding(n - 1);
      if |quad| < 2 {
        ScanFill(n - 1, quad, pads);
      } else if |quad| + pads + 1 < 4 {
        ScanFill(n - 1, quad, pads + 1);
      }
    }
  }

  /** `n` letters followed by `fill` times '=' decode when the last group is empty or has at least
      two letters and is filled up. */
  predicate Complete(n: nat, fill: nat) { n % 4 == 0 || (n % 4 >= 2 && n % 4 + fill >= 4) }

  lemma {:induction false} WholeAndRest(v: seq<Sextet>)
    ensures Bytes(v[..Whole(|v|)]) + Bytes(v[Whole(|v|)..]) == Bytes(v)
  {
    BytesAppend(v[..Whole(|v|)], v[Whole(|v|)..]);
    assert v[..Whole(|v|)] + v[Whole(|v|)..] == v;
  }

  lemma {:induction false} ValuesLength(body: string)
    requires InAlphabet(body)
    ensures |Values(body)| == |body|
  {
    if body != "" { ValuesLength(body[1..]); }
  }

  lemma {:induction false} ScanPadded(body: string, fill: nat)
    requires InAlphabet(body)
    ensures Scan(body + Padding(fill), [], 0)
         == if Complete(|body|, fill) then Some(Bytes(Values(body))) else None
  {
    var v := Values(body);
    ValuesLength(body);
    assert [] + v == v;
    ScanLetters(body, Padding(fill), []);
    ScanFill(fill, v[Whole(|v|)..], 0);
    WholeAndRest(v);
  }

  /** A complete padding ends the text for Python, whatever follows. */
  lemma {:induction false} ScanStops(body: string, rest: string)
    requires InAlphabet(body) && |body| % 4 >= 2
    ensures Scan(body + (Padding(4 - |body| % 4) + rest), [], 0) == Some(Bytes(Values(body)))
  {
    var v, fill := Values(body), 4 - |body| % 4;
    var tail := Padding(fill) + rest;
    ValuesLength(body);
    assert [] + v == v;
    ScanLetters(body, tail, []);
    WholeAndRest(v);
    assert tail[0] == '=' && (fill == 2 ==> tail[1] == '=' && tail[1..][0] == '=');
  }

  // ---- The two decoders compared ----

  lemma DropFillSplits(text: string)
    ensures var body := DropFill(text);
            && |body| <= |text| && text == body + Padding(|text| - |body|)
            && |text| - |body| <= 2 && (|text| % 4 != 0 ==> body == text)
  {
  }

  lemma {:induction false} FilterIn(text: string, kind: Kind)
    ensures forall c :: c in Filter(text, kind) <==> c in text && kind.Has(c)
  {
    if text != "" {
      FilterIn(text[1..], kind);
      assert text == [text[0]] + text[1..];
    }
  }

  predicate Spelled(c: char) { SextetOf(c).Some? || IsSpace(c) || c == '=' }

  lemma AcceptedIsAscii(text: string)
    requires JsDecode(text).Some?
    ensures Ascii(text)
  {
    var compact := Compact(Padded(text));
    DropFillSplits(compact);
    FilterIn(Padded(text), NotSpace);
    forall i | 0 <= i < |text| ensures text[i] as int < 128 {
      var c := Padded(text)[i];
      assert c == StdChar(text[i]) && c in Padded(text);
      assert IsSpace(c) || c in compact;
      assert Spelled(c);
    }
  }

  /** On every text the browser opens, Python finds the same bytes, or refuses: exactly when the
      filled-up text, its spaces taken out, is not a multiple of four long. */
  lemma {:induction false} BrowserTextInPython(text: string)
    requires JsDecode(text).Some?
    ensures PyDecode(text) == if |Compact(Padded(text))| % 4 == 0 then JsDecode(text) else None
  {
    var compact := Compact(Padded(text));
    var body := DropFill(compact);
    AcceptedIsAscii(text);
    DropFillSplits(compact);
    ScanFilter(Padded(text), NotSpace, [], 0);
    ScanPadded(body, |compact| - |body|);
  }

  /** Texts that both sides open hold the same bytes on both. */
  lemma SameBytes(text: string)
    requires PyDecode(text).Some? && JsDecode(text).Some?
    ensures PyDecode(text) == JsDecode(text)
  {
    BrowserTextInPython(text);
  }

  lemma {:induction false} FilterAppend(a: string, b: string, kind: Kind)
    ensures Filter(a + b, kind) == Filter(a, kind) + Filter(b, kind)
  {
    if a == "" {
      assert a + b == b;
    } else {
      assert (a + b)[1..] == a[1..] + b;
      FilterAppend(a[1..], b, kind);
    }
  }

  lemma {:induction false} FilterAll(text: string, kind: Kind)
    requires forall i :: 0 <= i < |text| ==> kind.Has(text[i])
    ensures Filter(text, kind) == text
  {
    if text != "" { FilterAll(text[1..], kind); }
  }

  lemma {:induction false} FilterSame(text: string, kind: Kind, same: Kind)
    requires forall i :: 0 <= i < |text| ==> kind.Has(text[i]) == same.Has(text[i])
    ensures Filter(text, kind) == Filter(text, same)
  {
    if text != "" { FilterSame(text[1..], kind, same); }
  }

  /** The letters of a text, whatever stands between them. */
  function Letters(text: string): string { Filter(ToStd(text), Letter) }

  /** Only letters and ASCII whitespace. */
  predicate Clean(text: string) {
    forall i :: 0 <= i < |text| ==> SextetOf(StdChar(text[i])).Some? || IsSpace(text[i])
  }

  lemma LettersSpell(text: string)
    ensures InAlphabet(Letters(text))
  {
    var letters := Letters(text);
    FilterIn(ToStd(text), Letter);
    forall i | 0 <= i < |letters| ensures SextetOf(letters[i]).Some? {
      assert letters[i] in letters && Letter.Has(letters[i]);
    }
  }

  /** A text without '=' opens in Python when its letters are filled up by what the text lacks. */
  lemma {:induction false} PythonAcceptsIff(text: string)
    requires '=' !in text
    ensures PyDecode(text) == if (forall i :: 0 <= i < |text| ==> text[i] as int < 128)
                                 && Complete(|Letters(text)|, Missing(|text|))
                              then Some(Bytes(Values(Letters(text)))) else None
  {
    var std, fill := ToStd(text), Padding(Missing(|text|));
    LettersSpell(text);
    FilterSame(std, LetterOrFill, Letter);
    FilterAppend(std, fill, LetterOrFill);
    FilterAll(fill, LetterOrFill);
    ScanFilter(Padded(text), LetterOrFill, [], 0);
    ScanPadded(Letters(text), Missing(|text|));
  }

  lemma LastTwo(body: string, fill: nat)
    requires '=' !in body && 0 < fill < 4 && (|body| + fill) % 4 == 0
    ensures DropFill(body + Padding(fill)) == body + Padding(if fill <= 2 then 0 else 1)
  {
    var text := body + Padding(fill);
    assert text[|text| - 1] == '=';
    if fill == 1 {
      assert body[|body| - 1] in body && text[|text| - 2] == body[|body| - 1];
      assert text[..|text| - 1] == body + Padding(0);
    } else {
      assert text[|text| - 2] == '=';
      assert text[..|text| - 2] == body + Padding(fill - 2);
    }
  }

  /** How many '=' are left of `fill` after `n` letters. */
  function Left(n: nat, fill: nat): nat {
    if (n + fill) % 4 != 0 then fill else if fill <= 2 then 0 else 1
  }

  lemma LeftRule(n: nat, fill: nat)
    requires fill < 4
    ensures Left(n, fill) == 0 && n % 4 != 1 <==> if fill == 0 then n % 4 != 1 else fill <= 2 && (n + fill) % 4 == 0
  {
  }

  lemma DropFillOf(body: string, fill: nat)
    requires '=' !in body && fill < 4
    ensures DropFill(body + Padding(fill)) == body + Padding(Left(|body|, fill))
  {
    if fill > 0 && (|body| + fill) % 4 == 0 {
      LastTwo(body, fill);
    } else if fill == 0 {
      assert body + Padding(0) == body;
      assert body != "" ==> body[|body| - 1] in body;
    }
  }

  lemma FilledInAlphabet(body: string, n: nat)
    ensures InAlphabet(body + Padding(n)) <==> InAlphabet(body) && n == 0
  {
    var text := body + Padding(n);
    assert forall i :: 0 <= i < |body| ==> text[i] == body[i];
    if n > 0 { assert text[|body|] == '='; }
  }

  lemma {:induction false} CompactText(text: string)
    requires '=' !in text
    ensures Compact(Padded(text)) == Compact(ToStd(text)) + Padding(Missing(|text|))
    ensures '=' !in Compact(ToStd(text))
  {
    FilterAppend(ToStd(text), Padding(Missing(|text|)), NotSpace);
    FilterAll(Padding(Missing(|text|)), NotSpace);
    FilterIn(ToStd(text), NotSpace);
  }

  lemma {:induction false} CleanCompact(text: string)
    requires '=' !in text
    ensures Clean(text) ==> Compact(ToStd(text)) == Letters(text)
    ensures !Clean(text) ==> exists i :: 0 <= i < |Compact(ToStd(text))| && SextetOf(Compact(ToStd(text))[i]).None?
  {
    var std := ToStd(text);
    if Clean(text) {
      FilterSame(std, NotSpace, Letter);
    } else {
      var i :| 0 <= i < |text| && SextetOf(StdChar(text[i])).None? && !IsSpace(text[i]);
      FilterIn(std, NotSpace);
      assert std[i] in std && std[i] in Compact(std);
    }
  }

  /** The browser opens it when it holds nothing but letters and spaces, and the filled-up letters
      are a multiple of four long; where the text lacks nothing, one letter too many is refused. */
  lemma {:induction false} BrowserAcceptsIff(text: string)
    requires '=' !in text
    ensures var n, k := |Letters(text)|, Missing(|text|);
            JsDecode(text) == if Clean(text) && (if k == 0 then n % 4 != 1 else k <= 2 && (n + k) % 4 == 0)
                              then Some(Bytes(Values(Letters(text)))) else None
  {
    var compact := Compact(ToStd(text));
    var left := Left(|compact|, Missing(|text|));
    CompactText(text);
    CleanCompact(text);
    LettersSpell(text);
    DropFillOf(compact, Missing(|text|));
    FilledInAlphabet(compact, left);
    LeftRule(|compact|, Missing(|text|));
    assert left == 0 ==> compact + Padding(left) == compact;
  }

  lemma AlphabetText(text: string)
    requires InAlphabet(ToStd(text))
    ensures Ascii(text) && '=' !in text && Clean(text)
  {
    forall i | 0 <= i < |text| ensures SextetOf(StdChar(text[i])).Some? {
      assert SextetOf(ToStd(text)[i]).Some?;
    }
  }

  lemma {:induction false} AllLetters(text: string)
    requires InAlphabet(ToStd(text))
    ensures Letters(text) == ToStd(text)
  {
    FilterAll(ToStd(text), Letter);
  }

  lemma FilledUp(n: nat)
    ensures Complete(n, Missing(n)) <==> n % 4 != 1
    ensures (if Missing(n) == 0 then n % 4 != 1 else Missing(n) <= 2 && (n + Missing(n)) % 4 == 0) <==> n % 4 != 1
  {
  }

  /** On texts over the alphabet the two decoders agree, and refuse one letter too many. */
  lemma {:induction false} AlphabetAgrees(text: string)
    requires InAlphabet(ToStd(text))
    ensures PyDecode(text) == JsDecode(text)
    ensures PyDecode(text) == if |text| % 4 == 1 then None else Some(Bytes(Values(ToStd(text))))
  {
    AlphabetText(text);
    AllLetters(text);
    FilledUp(|text|);
    PythonAcceptsIff(text);
    BrowserAcceptsIff(text);
  }

  /** Characters neither decoder has a use for. */
  predicate Junk(text: string) {
    forall i :: 0 <= i < |text| ==> text[i] as int < 128 && !Spelled(StdChar(text[i]))
  }

  lemma {:induction false} FilterNone(text: string, kind: Kind)
    requires forall i :: 0 <= i < |text| ==> !kind.Has(text[i])
    ensures Filter(text, kind) == ""
  {
    if text != "" { FilterNone(text[1..], kind); }
  }

  lemma {:induction false} LettersAppend(a: string, b: string)
    ensures Letters(a + b) == Letters(a) + Letters(b)
  {
    assert ToStd(a + b) == ToStd(a) + ToStd(b);
    FilterAppend(ToStd(a), ToStd(b), Letter);
  }

  lemma {:induction false} NoLetters(text: string)
    requires forall i :: 0 <= i < |text| ==> SextetOf(StdChar(text[i])).None?
    ensures Letters(text) == ""
  {
    FilterNone(ToStd(text), Letter);
  }

  lemma {:induction false} JunkLetters(head: string, junk: string, tail: string)
    requires InAlphabet(ToStd(head)) && InAlphabet(ToStd(tail)) && Junk(junk)
    ensures var text := head + junk + tail;
            Letters(text) == Letters(head + tail) && Ascii(text) && '=' !in text && '=' !in head + tail
  {
    AlphabetText(head);
    AlphabetText(tail);
    LettersAppend(head + junk, tail);
    LettersAppend(head, junk);
    LettersAppend(head, tail);
    NoLetters(junk);
    assert forall c :: c in head + junk + tail <==> c in head || c in junk || c in tail;
  }

  lemma AddFour(n: nat, more: nat)
    requires more % 4 == 0
    ensures Missing(n + more) == Missing(n)
  {
  }

  /** Four characters of junk inside a text are nothing to Python; the browser throws. */
  lemma {:induction false} JunkOpensInPythonOnly(head: string, junk: string, tail: string)
    requires InAlphabet(ToStd(head)) && InAlphabet(ToStd(tail)) && Junk(junk) && junk != "" && |junk| % 4 == 0
    ensures PyDecode(head + junk + tail) == PyDecode(head + tail)
    ensures JsDecode(head + junk + tail) == None
  {
    var text := head + junk + tail;
    JunkLetters(head, junk, tail);
    JunkLetters(head, "", tail);
    assert head + "" == head;
    AddFour(|head + tail|, |junk|);
    assert |text| == |head + tail| + |junk|;
    PythonAcceptsIff(text);
    PythonAcceptsIff(head + tail);
    BrowserAcceptsIff(text);
    assert text[|head|] == junk[0];
  }

  lemma JunkInside(text: string, at: nat, junk: string)
    requires InAlphabet(ToStd(text)) && at <= |text| && Junk(junk) && |junk| == 4
    ensures PyDecode(text[..at] + junk + text[at..]) == PyDecode(text)
    ensures JsDecode(text[..at] + junk + text[at..]) == None
  {
    assert text[..at] + text[at..] == text;
    assert ToStd(text[..at]) == ToStd(text)[..at] && ToStd(text[at..]) == ToStd(text)[at..];
    JunkOpensInPythonOnly(text[..at], junk, text[at..]);
  }

  lemma SpacedLetters(text: string, spaces: string)
    requires InAlphabet(ToStd(text)) && |text| % 4 == 2 && '=' !in text && Clean(text)
    requires |spaces| == 2 && IsSpace(spaces[0]) && IsSpace(spaces[1])
    ensures var blank := text + spaces;
            && Letters(blank) == ToStd(text) && Clean(blank) && '=' !in blank && Missing(|blank|) == 0
  {
    LettersAppend(text, spaces);
    NoLetters(spaces);
    AllLetters(text);
  }

  /** Two spaces after a text that ends in a group of two are nothing to the browser; Python,
      which counts them when it fills the text up, refuses it. */
  lemma {:induction false} SpacesOpenInBrowserOnly(text: string, spaces: string)
    requires InAlphabet(ToStd(text)) && |text| % 4 == 2
    requires |spaces| == 2 && IsSpace(spaces[0]) && IsSpace(spaces[1])
    ensures PyDecode(text + spaces) == None
    ensures JsDecode(text + spaces) == JsDecode(text) && JsDecode(text).Some?
  {
    AlphabetText(text);
    SpacedLetters(text, spaces);
    PythonAcceptsIff(text + spaces);
    BrowserAcceptsIff(text + spaces);
    AlphabetAgrees(text);
    AllLetters(text);
  }

  lemma SamePrefix(a: string, b: string, tail: string)
    requires a + tail == b + tail
    ensures a == b
  {
    assert a == (a + tail)[..|a|] && b == (b + tail)[..|b|];
  }

  lemma {:induction false} EncodedLetters(raw: seq<Byte>)
    ensures ToStd(Encode(raw)) == Chars(Sextets(raw)) && |Encode(raw)| % 4 != 1
  {
    var body := Chars(Sextets(raw));
    EncodingShape(raw);
    BytesOfSextets(raw);
    CharsSpell(Sextets(raw));
    SamePrefix(ToStd(Encode(raw)), body, Padding(Missing(|body|)));
  }

  lemma EncodingSpelled(raw: seq<Byte>)
    ensures InAlphabet(ToStd(Encode(raw)))
  {
    EncodedLetters(raw);
    CharsSpell(Sextets(raw));
  }

  /** Decoding undoes encoding, for every byte string and on both sides. */
  lemma {:induction false} RoundTrip(raw: seq<Byte>)
    ensures PyDecode(Encode(raw)) == Some(raw) && JsDecode(Encode(raw)) == Some(raw)
  {
    EncodedLetters(raw);
    CharsSpell(Sextets(raw));
    AlphabetAgrees(Encode(raw));
    BytesOfSextets(raw);
  }

  // ---- The encoding, character by character ----

  /** The alphabets of RFC 4648: upper case, lower case and digits follow each other; 62 and 63 are
      '+' and '/' (section 4), or '-' and '_' in URLs (section 5). Decoding takes both. */
  lemma AlphabetRule(v: Sextet, c: char)
    ensures CharOf(0) == 'A' && CharOf(26) == 'a' && CharOf(52) == '0' && CharOf(62) == '+' && CharOf(63) == '/'
    ensures v < 62 && v != 0 && v != 26 && v != 52 ==> CharOf(v) as int == CharOf(v - 1) as int + 1
    ensures UrlChar(CharOf(v)) == if v == 62 then '-' else if v == 63 then '_' else CharOf(v)
    ensures SextetOf(c) == Some(v) <==> c == CharOf(v)
    ensures SextetOf(StdChar(c)) == Some(v) <==> c == CharOf(v) || c == UrlChar(CharOf(v))
  {
    CharRoundTrip(v);
  }

  /** Three bytes and their four sextets are the same 24-bit number; a rest of one or two bytes is
      its sextets' number with zero bits below. */
  lemma GroupNumber(a: Byte, b: Byte, c: Byte)
    ensures var v := Group(a, b, c);
            |v| == 4 && ((v[0] as int * 64 + v[1] as int) * 64 + v[2] as int) * 64 + v[3] as int == (a * 256 + b) * 256 + c
    ensures var v := Sextets([a, b]);
            |v| == 3 && (v[0] as int * 64 + v[1] as int) * 64 + v[2] as int == (a * 256 + b) * 4
    ensures var v := Sextets([a]); |v| == 2 && v[0] as int * 64 + v[1] as int == a * 16
  {
  }

  lemma ShiftedSlices(head: seq<Sextet>, tail: seq<Sextet>, n: nat)
    requires |head| == 4 && n <= |tail|
    ensures (head + tail)[n + 4..] == tail[n..]
    ensures n + 4 <= |tail| ==> (head + tail)[n + 4..n + 8] == tail[n..n + 4]
  {
  }

  /** The sextets of a text are those of its groups of three bytes, in order, and of its rest. */
  lemma {:induction false} SextetsAt(raw: seq<Byte>, i: nat)
    requires 3 * i < |raw|
    ensures 4 * i <= |Sextets(raw)|
    ensures 3 * i + 2 < |raw| ==> 4 * i + 4 <= |Sextets(raw)|
                                  && Sextets(raw)[4 * i..4 * i + 4] == Group(raw[3 * i], raw[3 * i + 1], raw[3 * i + 2])
    ensures 3 * i + 2 >= |raw| ==> Sextets(raw)[4 * i..] == Sextets(raw[3 * i..])
  {
    if i > 0 {
      var rest := raw[3..];
      SextetsAt(rest, i - 1);
      assert rest[3 * (i - 1)..] == raw[3 * i..];
      ShiftedSlices(Group(raw[0], raw[1], raw[2]), Sextets(rest), 4 * (i - 1));
    }
  }

  lemma {:induction false} CharsAt(v: seq<Sextet>, k: nat)
    requires k < |v|
    ensures |Chars(v)| == |v| && Chars(v)[k] == CharOf(v[k])
  {
    CharsSpell(v);
    if k > 0 { CharsAt(v[1..], k - 1); }
  }

  /** Every character of an encoding is that of its sextet in the URL alphabet. */
  lemma {:induction false} EncodingSpells(raw: seq<Byte>, k: nat)
    requires k < |Encode(raw)|
    ensures |Encode(raw)| == |Sextets(raw)| && Encode(raw)[k] == UrlChar(CharOf(Sextets(raw)[k]))
  {
    var v := Sextets(raw);
    BytesOfSextets(raw);
    EncodingShape(raw);
    CharsSpell(v);
    UrlBody(Chars(v));
    StripFill(ToUrl(Chars(v)), Missing(|Chars(v)|));
    CharsAt(v, k);
    assert ToUrl(EncodePadded(raw)) == ToUrl(Chars(v)) + Padding(Missing(|Chars(v)|));
  }

  /** ASCII whitespace: tab, line feed, form feed, carriage return and space. */
  lemma SpaceRule(c: char)
    ensures IsSpace(c) <==> c as int in {9, 10, 12, 13, 32}
  {
  }
}
