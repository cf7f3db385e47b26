/** The bytes that a foreground qsub sends to a background qsub (src/cmds/qsub.c:4431-4720, 5796-5807). */
module WireCodec {
  import opened CText

  type byte = b: int | 0 <= b < 256
  type Bytes = seq<byte>

  // ----- int, as memmove copies it (four bytes, least significant first) -----

  const INT_LIMIT := 0x8000_0000

  function EncodeInt(n: int): (b: Bytes)
    ensures |b| == 4
  {
    var u := n % 0x1_0000_0000;
    var u1 := u / 256;
    var u2 := u1 / 256;
    [u % 256, u1 % 256, u2 % 256, u2 / 256]
  }

  function DecodeInt(b: Bytes): int
    requires |b| == 4
  {
    var u: int := (b[0] as int) + 256 * ((b[1] as int) + 256 * ((b[2] as int) + 256 * (b[3] as int)));
    if u < INT_LIMIT then u else u - 0x1_0000_0000
  }

  lemma {:induction false} IntRoundTrip(n: int)
    requires -INT_LIMIT <= n < INT_LIMIT
    ensures DecodeInt(EncodeInt(n)) == n
  {
  }

  // ----- null terminated strings -----

  /** No terminator inside. */
  predicate Text(s: Bytes) {
    0 !in s
  }

  /** The string that a C pointer to the front of b denotes. */
  function CString(b: Bytes): Bytes {
    if b == [] || b[0] == 0 then [] else [b[0]] + CString(b[1..])
  }

  lemma {:induction false} CStringAt(s: Bytes, t: Bytes)
    requires Text(s)
    ensures CString(s + [0] + t) == s
  {
    if s == [] {
    } else {
      assert (s + [0] + t)[1..] == s[1..] + [0] + t;
      CStringAt(s[1..], t);
    }
  }

  function EncodeString(s: Bytes): Bytes {
    EncodeInt(|s| + 1) + (s + [0])
  }

  // ----- attribute lists -----

  /** One struct attrl. An absent resource is not an empty one. */
  datatype Attr = Attr(name: Bytes, resource: Option<Bytes>, value: Bytes) {
    predicate Valid() {
      Text(name) && Text(value) && (resource.Some? ==> Text(resource.value))
    }

    function LenR(): nat {
      if resource.Some? then |resource.value| + 1 else 0
    }

    /** lenreq: what the entry takes on the wire. */
    function Size(): nat {
      12 + (|name| + 1) + LenR() + (|value| + 1)
    }
  }

  function Strings(a: Attr): Bytes {
    a.name + [0] + (if a.resource.Some? then a.resource.value + [0] else []) + (a.value + [0])
  }

  function EncodeAttr(a: Attr): (b: Bytes)
    ensures |b| == a.Size()
  {
    EncodeInt(|a.name| + 1) + EncodeInt(a.LenR()) + EncodeInt(|a.value| + 1) + Strings(a)
  }

  function SizeOf(attrs: seq<Attr>): nat {
    if attrs == [] then 0 else attrs[0].Size() + SizeOf(attrs[1..])
  }

  function EncodeAttrs(attrs: seq<Attr>): (b: Bytes)
    ensures |b| == SizeOf(attrs)
  {
    if attrs == [] then [] else EncodeAttr(attrs[0]) + EncodeAttrs(attrs[1..])
  }

  lemma {:induction false} SizeOfAppend(x: seq<Attr>, y: seq<Attr>)
    ensures SizeOf(x + y) == SizeOf(x) + SizeOf(y)
  {
    if x == [] {
      assert x + y == y;
    } else {
      assert (x + y)[1..] == x[1..] + y;
      SizeOfAppend(x[1..], y);
    }
  }

  lemma {:induction false} EncodeAttrsAppend(x: seq<Attr>, a: Attr)
    ensures SizeOf(x + [a]) == SizeOf(x) + a.Size()
    ensures EncodeAttrs(x + [a]) == EncodeAttrs(x) + EncodeAttr(a)
  {
    SizeOfAppend(x, [a]);
    assert [a][1..] == [];
    if x == [] {
      assert x + [a] == [a];
      assert EncodeAttr(a) + [] == EncodeAttr(a) && [] + EncodeAttr(a) == EncodeAttr(a);
    } else {
      hide EncodeAttr;
      assert (x + [a])[1..] == x[1..] + [a];
      EncodeAttrsAppend(x[1..], a);
      assert EncodeAttr(x[0]) + (EncodeAttrs(x[1..]) + EncodeAttr(a)) == EncodeAttrs(x) + EncodeAttr(a);
    }
  }

  function EncodeAttrList(attrs: seq<Attr>): Bytes {
    EncodeInt(SizeOf(attrs)) + EncodeAttrs(attrs)
  }

  // ----- the option registers, in decimal -----

  /** %d for a register value. */
  function Decimal(n: nat): (b: Bytes)
    ensures |b| > 0
  {
    if n < 10 then [48 + n] else Decimal(n / 10) + [48 + n % 10]
  }

  /** Each register followed by a blank. */
  function FormatOpts(opts: seq<nat>): Bytes {
    if opts == [] then [] else Decimal(opts[0]) + [32] + FormatOpts(opts[1..])
  }

  predicate IsDigit(b: byte) {
    48 <= b <= 57
  }

  /** The number read on from acc, and what follows it. */
  function ScanNumber(s: Bytes, acc: nat): (r: (nat, Bytes))
    ensures |r.1| <= |s|
  {
    if s == [] || !IsDigit(s[0]) then (acc, s) else ScanNumber(s[1..], acc * 10 + (s[0] - 48))
  }

  function SkipBlanks(s: Bytes): (r: Bytes)
    ensures |r| <= |s|
  {
    if s == [] || s[0] != 32 then s else SkipBlanks(s[1..])
  }

  /** sscanf with k conversions. */
  function ScanOpts(s: Bytes, k: nat): seq<nat>
    decreases k
  {
    if k == 0 then []
    else
      var (n, rest) := ScanNumber(SkipBlanks(s), 0);
      [n] + ScanOpts(rest, k - 1)
  }

  lemma {:induction false} DecimalScan(n: nat, t: Bytes)
    ensures ScanNumber(Decimal(n) + t, 0) == ScanNumber(t, n)
    ensures IsDigit(Decimal(n)[0])
  {
    if n < 10 {
      assert (Decimal(n) + t)[1..] == t;
    } else {
      var d: byte := 48 + n % 10;
      DecimalScan(n / 10, [d] + t);
      assert Decimal(n) + t == Decimal(n / 10) + ([d] + t);
      assert ([d] + t)[1..] == t;
    }
  }

  lemma {:induction false} DecimalText(n: nat)
    ensures Text(Decimal(n))
  {
    if n >= 10 {
      DecimalText(n / 10);
    }
  }

  lemma {:induction false} FormatText(opts: seq<nat>)
    ensures Text(FormatOpts(opts))
  {
    if opts != [] {
      FormatText(opts[1..]);
      DecimalText(opts[0]);
    }
  }

  /** Reading the registers back gives the registers, whatever the length of their digits. */
  lemma {:induction false} OptsRoundTrip(opts: seq<nat>, blank: bool)
    ensures ScanOpts((if blank then [32] else []) + FormatOpts(opts), |opts|) == opts
  {
    if opts != [] {
      hide Decimal, ScanNumber;
      var rest := FormatOpts(opts[1..]);
      var f := FormatOpts(opts);
      assert f == Decimal(opts[0]) + ([32] + rest);
      DecimalScan(opts[0], [32] + rest);
      assert f[0] == Decimal(opts[0])[0];
      OptsBlank(f, blank);
      NumberStops([32] + rest, opts[0]);
      OptsRoundTrip(opts[1..], true);
      assert opts == [opts[0]] + opts[1..];
    }
  }

  lemma {:induction false} OptsBlank(f: Bytes, blank: bool)
    requires f != [] && IsDigit(f[0])
    ensures SkipBlanks((if blank then [32] else []) + f) == f
  {
    assert ([32] + f)[1..] == f && [] + f == f;
  }

  lemma {:induction false} NumberStops(t: Bytes, n: nat)
    requires t != [] && !IsDigit(t[0])
    ensures ScanNumber(t, n) == (n, t)
  {
  }

  // ----- a request -----

  /** Everything that daemon_submit sends. v_value and qsub_envlist may be null pointers. */
  datatype Request = Request(
    attrs: seq<Attr>, destination: Bytes, script: Bytes, credName: Bytes, vValue: Option<Bytes>,
    basicEnv: Bytes, qsubEnv: Option<Bytes>, cwd: Bytes, opts: seq<nat>)
  {
    /** C strings, 35 registers that fit the text buffer of 100, and lengths that fit an int. */
    predicate Valid() {
      && (forall a <- attrs :: a.Valid())
      && SizeOf(attrs) < INT_LIMIT
      && (forall s <- Strings() :: Text(s) && |s| < INT_LIMIT - 1)
      && |opts| == 35 && |FormatOpts(opts)| < 100
    }

    /** The strings that follow the attribute list, in the order of sending. */
    function Strings(): seq<Bytes> {
      [destination, script, credName, vValue.GetOr([]), basicEnv, qsubEnv.GetOr([]), cwd]
    }
  }

  function EncodeStrings(ss: seq<Bytes>): Bytes {
    if ss == [] then [] else EncodeString(ss[0]) + EncodeStrings(ss[1..])
  }

  function EncodeRequest(r: Request): Bytes {
    EncodeAttrList(r.attrs) + EncodeStrings(r.Strings()) + EncodeString(FormatOpts(r.opts))
  }

  /** ATTR_v. */
  const VARIABLE_LIST: Bytes :=
    [86, 97, 114, 105, 97, 98, 108, 101, 95, 76, 105, 115, 116]

  /** How an attribute arrives: a variable list without resource gains the host variable of the daemon. */
  function ArrivedAttr(a: Attr, hostvar: Option<Bytes>): Attr {
    if a.resource.None? && a.name == VARIABLE_LIST && hostvar.Some? then a.(value := a.value + hostvar.value) else a
  }

  function ArrivedAttrs(attrs: seq<Attr>, hostvar: Option<Bytes>): seq<Attr> {
    if attrs == [] then [] else [ArrivedAttr(attrs[0], hostvar)] + ArrivedAttrs(attrs[1..], hostvar)
  }

  /** What the daemon holds after receiving r: null strings have become empty ones. */
  function Arrived(r: Request, hostvar: Option<Bytes>): Request {
    r.(attrs := ArrivedAttrs(r.attrs, hostvar),
       vValue := Some(r.vValue.GetOr([])),
       qsubEnv := Some(r.qsubEnv.GetOr([])))
  }
}
