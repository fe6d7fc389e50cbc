/** The AuthInfo decoder of auth/parse.go.

    An AuthInfo record is four consecutive fields, each a 2-byte
    little-endian length followed by that many bytes: CallerID, ServerID,
    Cap and Secret. `gbytes` reads one field and returns it with the rest
    of the buffer; `convM2AI` threads that rest through the four fields.
 */
module AuthInfo {
  import opened Bytes

  /** The length prefix at the head of `p`, read little-endian. */
  function Uint16LE(p: seq<Byte>): (n: nat)
    requires |p| >= 2
    ensures n < 65536
    ensures n % 256 == p[0] as int && n / 256 == p[1] as int
  {
    p[0] as int + 256 * p[1] as int
  }

  /** The encoding `gbytes` reads: a little-endian length, then the bytes. */
  function Field(f: seq<Byte>): (e: seq<Byte>)
    requires |f| < 65536
    ensures |e| == |f| + 2 && Uint16LE(e) == |f| && e[2..] == f
  {
    [(|f| % 256) as Byte, (|f| / 256) as Byte] + f
  }

  /** gbytes: one length-prefixed field and the remainder.
      A nil or 1-byte buffer is handed back whole; a length that runs past
      the end consumes the prefix only. */
  function GBytes(p: Slice): (r: (Slice, Slice))
    ensures r.1.None? <==> p.None?
    ensures r.1.Some? ==> IsSuffix(r.1.value, p.value)
    ensures r.0.None? <==> p.None? || |p.value| < 2 || Uint16LE(p.value) > |p.value| - 2
    ensures r.0.Some? ==> p.Some? && |r.0.value| < 65536 && p.value == Field(r.0.value) + r.1.value
  {
    if p.None? || |p.value| < 2 then (None, p)
    else
      var n := Uint16LE(p.value);
      var q := p.value[2..];
      if |q| < n then (None, Some(q))
      else
        assert p.value == Field(q[..n]) + q[n..];
        (Some(q[..n]), Some(q[n..]))
  }

  /** gstring: gbytes read as a string, with nil read as "". */
  function GString(p: Slice): (r: (Text, Slice))
    ensures r.1 == GBytes(p).1
    ensures GBytes(p).0.None? ==> r.0 == []
    ensures GBytes(p).0.Some? ==> r.0 == GBytes(p).0.value
  {
    var (s, rest) := GBytes(p);
    if s.None? then ([], rest) else (s.value, rest)
  }

  /** Info: the AuthInfo structure. Secret keeps Go's nil/empty distinction. */
  datatype Info = Info(callerID: Text, serverID: Text, cap: Text, secret: Slice)

  /** convM2AI: the record (a nil pointer is `None`) and the remainder. */
  function ConvM2AI(p: Slice): (r: (Option<Info>, Slice))
    ensures r.0.None? <==> p.None?
    ensures r.1.None? <==> p.None?
    ensures r.1.Some? ==> IsSuffix(r.1.value, p.value)
  {
    var (callerID, p1) := GString(p);
    var (serverID, p2) := GString(p1);
    var (cap, p3) := GString(p2);
    var (secret, p4) := GBytes(p3);
    if p4.None? then (None, p4)
    else (Some(Info(callerID, serverID, cap, secret)), p4)
  }

  /** The encoding of a whole record, the inverse of convM2AI. */
  function EncodeInfo(callerID: Text, serverID: Text, cap: Text, secret: seq<Byte>): (e: seq<Byte>)
    requires |callerID| < 65536 && |serverID| < 65536 && |cap| < 65536 && |secret| < 65536
    ensures |e| == |callerID| + |serverID| + |cap| + |secret| + 8
  {
    Field(callerID) + Field(serverID) + Field(cap) + Field(secret)
  }

  lemma EncodeInfoThenRest(callerID: Text, serverID: Text, cap: Text, secret: seq<Byte>, rest: seq<Byte>)
    requires |callerID| < 65536 && |serverID| < 65536 && |cap| < 65536 && |secret| < 65536
    ensures EncodeInfo(callerID, serverID, cap, secret) + rest
         == Field(callerID) + (Field(serverID) + (Field(cap) + (Field(secret) + rest)))
  {
  }

  lemma GBytesNilOrShort(p: Slice)
    requires p.None? || |p.value| < 2
    ensures GBytes(p) == (None, p)
  {
  }

  /** A length that fits splits the buffer into one encoded field and the
      rest, and gbytes returns exactly that field. */
  lemma GBytesLength(p: seq<Byte>)
    requires |p| >= 2
    ensures Uint16LE(p) <= |p| - 2 ==>
      p == Field(p[2..2 + Uint16LE(p)]) + p[2 + Uint16LE(p)..] &&
      GBytes(Some(p)).0 == Some(p[2..2 + Uint16LE(p)])
  {
  }

  /** A declared length past the end: nil field, prefix consumed, body not. */
  lemma GBytesOverlong(p: seq<Byte>)
    requires |p| >= 2 && Uint16LE(p) > |p| - 2
    ensures GBytes(Some(p)) == (None, Some(p[2..]))
  {
  }

  lemma {:induction false} GBytesRoundTrip(f: seq<Byte>, rest: seq<Byte>)
    requires |f| < 65536
    ensures GBytes(Some(Field(f) + rest)) == (Some(f), Some(rest))
  {
    var p := Field(f) + rest;
    assert p[2..] == f + rest;
    assert Uint16LE(p) == |f|;
    assert (f + rest)[..|f|] == f && (f + rest)[|f|..] == rest;
  }

  lemma {:induction false} GStringRoundTrip(f: seq<Byte>, rest: seq<Byte>)
    requires |f| < 65536
    ensures GString(Some(Field(f) + rest)) == (f, Some(rest))
  {
    GBytesRoundTrip(f, rest);
  }

  /** Decoding an encoded record gives back its four fields and leaves
      trailing bytes as the remainder. */
  lemma {:induction false} ConvM2AIRoundTrip(callerID: Text, serverID: Text, cap: Text, secret: seq<Byte>, rest: seq<Byte>)
    requires |callerID| < 65536 && |serverID| < 65536 && |cap| < 65536 && |secret| < 65536
    ensures ConvM2AI(Some(EncodeInfo(callerID, serverID, cap, secret) + rest))
         == (Some(Info(callerID, serverID, cap, Some(secret))), Some(rest))
  {
    var r3 := Field(secret) + rest;
    var r2 := Field(cap) + r3;
    var r1 := Field(serverID) + r2;
    EncodeInfoThenRest(callerID, serverID, cap, secret, rest);
    GStringRoundTrip(callerID, r1);
    GStringRoundTrip(serverID, r2);
    GStringRoundTrip(cap, r3);
    GBytesRoundTrip(secret, rest);
  }

  /** A non-nil buffer too short for any length prefix still yields a
      record, with every field empty and Secret nil. */
  lemma ConvM2AIShort(p: seq<Byte>)
    requires |p| < 2
    ensures ConvM2AI(Some(p)) == (Some(Info([], [], [], None)), Some(p))
  {
  }

  /** As written: a record whose Secret is cut short is still accepted,
      with a nil Secret and the cut-off body as the remainder. */
  lemma {:induction false} ConvM2AIAcceptsTruncated(callerID: Text, serverID: Text, cap: Text, secret: seq<Byte>, m: nat)
    requires |callerID| < 65536 && |serverID| < 65536 && |cap| < 65536 && |secret| < 65536
    requires 2 <= m < |secret| + 2
    ensures ConvM2AI(Some(Field(callerID) + Field(serverID) + Field(cap) + Field(secret)[..m]))
         == (Some(Info(callerID, serverID, cap, None)), Some(secret[..m - 2]))
  {
    var t := Field(secret)[..m];
    var r2 := Field(cap) + t;
    var r1 := Field(serverID) + r2;
    assert Field(callerID) + Field(serverID) + Field(cap) + t == Field(callerID) + r1;
    GStringRoundTrip(callerID, r1);
    GStringRoundTrip(serverID, r2);
    GStringRoundTrip(cap, t);
    assert t[2..] == secret[..m - 2];
    GBytesOverlong(t);
  }

  /** The corrected decoder: as in the C library the Go code follows, a
      field that cannot be read makes the remainder nil, so that convM2AI's
      nil check rejects the record. */
  function GBytesStrict(p: Slice): (r: (Slice, Slice))
    ensures r.0.None? <==> r.1.None?
    ensures r.0.None? <==> p.None? || |p.value| < 2 || Uint16LE(p.value) > |p.value| - 2
    ensures r.0.Some? ==> p.Some? && |r.0.value| < 65536 && p.value == Field(r.0.value) + r.1.value
  {
    var (f, rest) := GBytes(p);
    if f.None? then (None, None) else (f, rest)
  }

  function GStringStrict(p: Slice): (r: (Text, Slice))
    ensures r.1.None? <==> GBytesStrict(p).0.None?
    ensures r.1.Some? ==> p.Some? && |r.0| < 65536 && p.value == Field(r.0) + r.1.value
  {
    var (s, rest) := GBytesStrict(p);
    if s.None? then ([], rest) else (s.value, rest)
  }

  /** The corrected convM2AI: a record is returned exactly when the buffer
      holds four complete fields, and then the buffer is their encoding
      followed by the remainder. */
  function ConvM2AIStrict(p: Slice): (r: (Option<Info>, Slice))
    ensures r.0.None? <==> r.1.None?
    ensures r.0.Some? ==> var ai := r.0.value;
      ai.secret.Some? && |ai.callerID| < 65536 && |ai.serverID| < 65536 && |ai.cap| < 65536 && |ai.secret.value| < 65536 &&
      p == Some(EncodeInfo(ai.callerID, ai.serverID, ai.cap, ai.secret.value) + r.1.value)
  {
    var (callerID, p1) := GStringStrict(p);
    var (serverID, p2) := GStringStrict(p1);
    var (cap, p3) := GStringStrict(p2);
    var (secret, p4) := GBytesStrict(p3);
    if p4.None? then (None, p4)
    else
      assert p.value == Field(callerID) + (Field(serverID) + (Field(cap) + (Field(secret.value) + p4.value)));
      EncodeInfoThenRest(callerID, serverID, cap, secret.value, p4.value);
      (Some(Info(callerID, serverID, cap, secret)), p4)
  }

  lemma {:induction false} ConvM2AIStrictRoundTrip(callerID: Text, serverID: Text, cap: Text, secret: seq<Byte>, rest: seq<Byte>)
    requires |callerID| < 65536 && |serverID| < 65536 && |cap| < 65536 && |secret| < 65536
    ensures ConvM2AIStrict(Some(EncodeInfo(callerID, serverID, cap, secret) + rest))
         == (Some(Info(callerID, serverID, cap, Some(secret))), Some(rest))
  {
    var r3 := Field(secret) + rest;
    var r2 := Field(cap) + r3;
    var r1 := Field(serverID) + r2;
    EncodeInfoThenRest(callerID, serverID, cap, secret, rest);
    GBytesRoundTrip(callerID, r1);
    GBytesRoundTrip(serverID, r2);
    GBytesRoundTrip(cap, r3);
    GBytesRoundTrip(secret, rest);
  }

  /** The corrected decoder rejects the record ConvM2AIAcceptsTruncated
      shows accepted. */
  lemma {:induction false} ConvM2AIStrictRejectsTruncated(callerID: Text, serverID: Text, cap: Text, secret: seq<Byte>, m: nat)
    requires |callerID| < 65536 && |serverID| < 65536 && |cap| < 65536 && |secret| < 65536
    requires m < |secret| + 2
    ensures ConvM2AIStrict(Some(Field(callerID) + Field(serverID) + Field(cap) + Field(secret)[..m])) == (None, None)
  {
    var t := Field(secret)[..m];
    var r2 := Field(cap) + t;
    var r1 := Field(serverID) + r2;
    assert Field(callerID) + Field(serverID) + Field(cap) + t == Field(callerID) + r1;
    GBytesRoundTrip(callerID, r1);
    GBytesRoundTrip(serverID, r2);
    GBytesRoundTrip(cap, t);
    if m >= 2 {
      assert t[2..] == secret[..m - 2];
      GBytesOverlong(t);
    }
  }
}
