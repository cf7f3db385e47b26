/** The wire format as a code: what two requests have in common when their bytes agree. */
module WireUnique {
  import opened CText
  import opened WireCodec
  import WireRequest

  lemma {:induction false} SameFront(x: Bytes, s: Bytes, y: Bytes, t: Bytes)
    requires x + s == y + t && |x| == |y|
    ensures x == y && s == t
  {
    assert (x + s)[..|x|] == x && (y + t)[..|y|] == y;
    assert (x + s)[|x|..] == s && (y + t)[|y|..] == t;
  }

  lemma {:induction false} IntUnique(n: int, s: Bytes, m: int, t: Bytes)
    requires -INT_LIMIT <= n < INT_LIMIT && -INT_LIMIT <= m < INT_LIMIT
    requires EncodeInt(n) + s == EncodeInt(m) + t
    ensures n == m && s == t
  {
    hide EncodeInt, DecodeInt;
    SameFront(EncodeInt(n), s, EncodeInt(m), t);
    IntRoundTrip(n);
    IntRoundTrip(m);
  }

  lemma {:induction false} StringUnique(a: Bytes, s: Bytes, b: Bytes, t: Bytes)
    requires |a| < INT_LIMIT - 1 && |b| < INT_LIMIT - 1
    requires EncodeString(a) + s == EncodeString(b) + t
    ensures a == b && s == t
  {
    hide EncodeInt;
    assert EncodeString(a) + s == EncodeInt(|a| + 1) + (a + [0] + s);
    assert EncodeString(b) + t == EncodeInt(|b| + 1) + (b + [0] + t);
    IntUnique(|a| + 1, a + [0] + s, |b| + 1, b + [0] + t);
    SameFront(a + [0], s, b + [0], t);
    assert (a + [0])[..|a|] == a && (b + [0])[..|b|] == b;
  }

  lemma {:induction false} StringsUnique(xs: seq<Bytes>, s: Bytes, ys: seq<Bytes>, t: Bytes)
    requires |xs| == |ys|
    requires forall i :: 0 <= i < |xs| ==> |xs[i]| < INT_LIMIT - 1 && |ys[i]| < INT_LIMIT - 1
    requires EncodeStrings(xs) + s == EncodeStrings(ys) + t
    ensures xs == ys && s == t
  {
    hide EncodeString;
    if xs == [] {
      assert [] + s == s && [] + t == t;
    } else {
      WireRequest.Assoc(EncodeString(xs[0]), EncodeStrings(xs[1..]), s);
      WireRequest.Assoc(EncodeString(ys[0]), EncodeStrings(ys[1..]), t);
      StringUnique(xs[0], EncodeStrings(xs[1..]) + s, ys[0], EncodeStrings(ys[1..]) + t);
      StringsUnique(xs[1..], s, ys[1..], t);
      assert xs == [xs[0]] + xs[1..] && ys == [ys[0]] + ys[1..];
    }
  }

  /** One entry: an absent and an empty resource in particular are told apart. */
  lemma {:induction false} AttrUnique(a: Attr, s: Bytes, b: Attr, t: Bytes)
    requires a.Valid() && b.Valid() && a.Size() < INT_LIMIT && b.Size() < INT_LIMIT
    requires EncodeAttr(a) + s == EncodeAttr(b) + t
    ensures a == b && s == t
  {
    hide EncodeInt, DecodeInt, Strings, CString, EncodeAttr;
    WireRequest.LengthsAt(a, s);
    WireRequest.LengthsAt(b, t);
    WireRequest.StringsAt(a, s);
    WireRequest.StringsAt(b, t);
    SameFront(EncodeAttr(a), s, EncodeAttr(b), t);
  }

  lemma {:induction false} AttrsUnique(xs: seq<Attr>, ys: seq<Attr>)
    requires forall a <- xs :: a.Valid()
    requires forall b <- ys :: b.Valid()
    requires SizeOf(xs) < INT_LIMIT && SizeOf(ys) < INT_LIMIT
    requires EncodeAttrs(xs) == EncodeAttrs(ys)
    ensures xs == ys
  {
    hide EncodeAttr;
    if xs != [] && ys != [] {
      assert xs[0] in xs && ys[0] in ys;
      AttrUnique(xs[0], EncodeAttrs(xs[1..]), ys[0], EncodeAttrs(ys[1..]));
      AttrsUnique(xs[1..], ys[1..]);
      assert xs == [xs[0]] + xs[1..] && ys == [ys[0]] + ys[1..];
    }
  }

  lemma {:induction false} ArrivedPlain(attrs: seq<Attr>)
    ensures ArrivedAttrs(attrs, None) == attrs
  {
    if attrs != [] {
      ArrivedPlain(attrs[1..]);
    }
  }

  lemma {:induction false} OptsUnique(a: seq<nat>, b: seq<nat>)
    requires |a| == |b| && FormatOpts(a) == FormatOpts(b)
    ensures a == b
  {
    hide FormatOpts, ScanOpts;
    OptsRoundTrip(a, false);
    OptsRoundTrip(b, false);
  }

  /** What follows the attribute list. */
  function Texts(r: Request): Bytes {
    EncodeStrings(r.Strings()) + EncodeString(FormatOpts(r.opts))
  }

  lemma {:induction false} RequestParts(r: Request)
    ensures EncodeRequest(r) == EncodeInt(SizeOf(r.attrs)) + (EncodeAttrs(r.attrs) + Texts(r))
  {
    hide EncodeInt, EncodeAttrs, EncodeStrings, EncodeString, FormatOpts, SizeOf;
  }

  lemma {:induction false} PartsUnique(a: Request, b: Request)
    requires a.Valid() && b.Valid() && EncodeRequest(a) == EncodeRequest(b)
    ensures a.attrs == b.attrs && a.Strings() == b.Strings() && a.opts == b.opts
  {
    hide EncodeInt, EncodeAttrs, EncodeStrings, EncodeString, FormatOpts, SizeOf;
    var (x, y) := (Texts(a), Texts(b));
    RequestParts(a);
    RequestParts(b);
    hide EncodeRequest, Texts;
    IntUnique(SizeOf(a.attrs), EncodeAttrs(a.attrs) + x, SizeOf(b.attrs), EncodeAttrs(b.attrs) + y);
    SameFront(EncodeAttrs(a.attrs), x, EncodeAttrs(b.attrs), y);
    AttrsUnique(a.attrs, b.attrs);
    TextPartsUnique(a, b);
  }

  lemma {:induction false} TextPartsUnique(a: Request, b: Request)
    requires a.Valid() && b.Valid()
    requires Texts(a) == Texts(b)
    ensures a.Strings() == b.Strings() && a.opts == b.opts
  {
    hide EncodeStrings, EncodeString, FormatOpts;
    assert forall i :: 0 <= i < 7 ==> a.Strings()[i] in a.Strings() && b.Strings()[i] in b.Strings();
    StringsUnique(a.Strings(), EncodeString(FormatOpts(a.opts)), b.Strings(), EncodeString(FormatOpts(b.opts)));
    StringUnique(FormatOpts(a.opts), [], FormatOpts(b.opts), []);
    OptsUnique(a.opts, b.opts);
  }

  /** Two requests look the same on the wire if and only if they differ in null against empty strings only. */
  lemma {:induction false} EncodingIdentifies(a: Request, b: Request)
    requires a.Valid() && b.Valid()
    ensures EncodeRequest(a) == EncodeRequest(b) <==> Arrived(a, None) == Arrived(b, None)
  {
    hide EncodeAttrList, EncodeStrings, EncodeString, FormatOpts;
    ArrivedPlain(a.attrs);
    ArrivedPlain(b.attrs);
    if EncodeRequest(a) == EncodeRequest(b) {
      PartsUnique(a, b);
      WireRequest.StringOrder(a);
      WireRequest.StringOrder(b);
    }
  }
}
