/** The factotum(4) RPC client of auth/rpc.go.

    A request is `verb ' ' arg`, framed into the connection's fixed
    4096-byte buffer; the reply is read into the same buffer and classified
    against the status tokens: a reply is a token alone, or a token, a space
    and a payload. The factotum agent behind the rpc file is an `Agent`: the
    outcome of writing one request and reading one reply.
 */
module Rpc {
  import opened Bytes

  const MaxLen := 4096
  const Space: Byte := 32

  const BadKey := Ascii("badkey")
  const Done := Ascii("done")
  const ErrorStatus := Ascii("error")
  const NeedKey := Ascii("needkey")
  const Ok := Ascii("ok")
  const Phase := Ascii("phase")
  const TooSmall := Ascii("toosmall")
  /** The literal callNeedKey compares statuses with, "needkey" misspelt. */
  const NeekKey := Ascii("neekkey")

  const Start := Ascii("start")
  const Read := Ascii("read")

  /** rpcReplyStatuses, in the order Call scans them ("error" twice). */
  const ReplyStatuses: seq<Text> := [BadKey, Done, ErrorStatus, ErrorStatus, NeedKey, Ok, Phase, TooSmall]

  /** A Go error, by its message. */
  datatype Error = Error(text: Text)

  const RequestTooBig := Error(Ascii("request too big"))

  /** The error Call returns for a reply no token matches: the reply
      follows a fixed 18-byte prefix. */
  function BadResponse(b: Text): (e: Error)
    ensures |e.text| == 18 + |b| && IsSuffix(b, e.text)
  {
    Error(Ascii("bad rpc response: ") + b)
  }

  /** What fmt's %v prints for an error value; a nil error is "<nil>". */
  function ShowError(err: Option<Error>): (t: Text)
    ensures err.Some? ==> t == err.value.text
    ensures err.None? ==> |t| == 5 && t[0] == 60 && t[4] == 62
  {
    match err
    case None => Ascii("<nil>")
    case Some(e) => e.text
  }

  function JoinSpaced(words: seq<Text>): (t: Text)
    ensures |words| > 0 ==> words[0] <= t
  {
    if |words| == 0 then []
    else if |words| == 1 then words[0]
    else words[0] + [Space] + JoinSpaced(words[1..])
  }

  /** What fmt's %v prints for a []string: "[a b c]". */
  function ShowList(words: seq<Text>): (t: Text)
    ensures |t| >= 2 && t[0] == 91 && t[|t| - 1] == 93
    ensures t[1..|t| - 1] == JoinSpaced(words)
  {
    Ascii("[") + JoinSpaced(words) + Ascii("]")
  }

  /** A reply read from the rpc file: at most one buffer's worth. */
  type Message = s: seq<Byte> | |s| <= MaxLen

  /** One write of a request to the rpc file and the read that follows it. */
  datatype Exchange = WriteFailed(writeErr: Error) | ReadFailed(readErr: Error) | Replied(reply: Message)

  type Agent = seq<Byte> -> Exchange

  /** A classified reply. */
  datatype Reply = Reply(status: Text, payload: Slice)

  /** The (status, payload, err) triple Call and callNeedKey return. */
  datatype Outcome = Outcome(status: Text, payload: Slice, err: Option<Error>)

  /** The request bytes Call writes. A nil arg contributes nothing. */
  function Frame(verb: Text, arg: Slice): (f: seq<Byte>)
    ensures |f| == |verb| + 1 + |Elements(arg)|
    ensures f[..|verb|] == verb && f[|verb|] == Space && f[|verb| + 1..] == Elements(arg)
  {
    verb + [Space] + Elements(arg)
  }

  predicate Fits(verb: Text, arg: Slice)
  {
    |verb| + 1 + |Elements(arg)| <= MaxLen
  }

  /** The reply `b` justifies the classification `r`: it is the status
      alone with a nil payload, or the status, a space and the payload. */
  predicate Justifies(b: Text, r: Reply)
  {
    (b == r.status && r.payload.None?) ||
    (r.payload.Some? && b == r.status + [Space] + r.payload.value)
  }

  /** One iteration of Call's scan: does token `s` classify `b`? */
  function MatchToken(b: Text, s: Text): (r: Option<Reply>)
    ensures r.Some? ==> r.value.status == s && Justifies(b, r.value)
    ensures r.None? ==> !(s <= b) || (|b| > |s| && b[|s|] != Space)
  {
    if s <= b then
      if |b| == |s| then Some(Reply(b, None))
      else if b[|s|] == Space then
        assert b == b[..|s|] + [Space] + b[|s| + 1..];
        Some(Reply(b[..|s|], Some(b[|s| + 1..])))
      else None
    else None
  }

  /** The scan of ReplyStatuses from index k on, first match wins. */
  function ScanFrom(b: Text, k: nat): (r: Option<Reply>)
    requires k <= |ReplyStatuses|
    ensures r.Some? ==> r.value.status in ReplyStatuses[k..] && Justifies(b, r.value)
    decreases |ReplyStatuses| - k
  {
    if k == |ReplyStatuses| then None
    else
      match MatchToken(b, ReplyStatuses[k])
      case Some(r) => Some(r)
      case None => ScanFrom(b, k + 1)
  }

  /** The classification Call applies to a reply. */
  function Classify(b: Text): (r: Option<Reply>)
    ensures r.Some? ==> r.value.status in ReplyStatuses && Justifies(b, r.value)
  {
    ScanFrom(b, 0)
  }

  /** What Call returns for one exchange with the agent. */
  function Deliver(x: Exchange): (o: Outcome)
    ensures o.err.None? <==> x.Replied? && Classify(x.reply).Some?
    ensures o.err.None? ==> o.status in ReplyStatuses && Justifies(x.reply, Reply(o.status, o.payload))
    ensures o.err.Some? ==> o.status == [] && o.payload.None?
  {
    match x
    case WriteFailed(e) => Outcome([], None, Some(e))
    case ReadFailed(e) => Outcome([], None, Some(e))
    case Replied(b) =>
      match Classify(b)
      case Some(r) => Outcome(r.status, r.payload, None)
      case None => Outcome([], None, Some(BadResponse(b)))
  }

  /** The result of Call(verb, arg) against `agent`. */
  function CallResult(agent: Agent, verb: Text, arg: Slice): (o: Outcome)
    ensures !Fits(verb, arg) ==> o.err == Some(RequestTooBig)
    ensures o.err.None? ==> Fits(verb, arg) && agent(Frame(verb, arg)).Replied? && o.status in ReplyStatuses
  {
    if !Fits(verb, arg) then Outcome([], None, Some(RequestTooBig))
    else Deliver(agent(Frame(verb, arg)))
  }

  /** `s` with its first |prefix| elements replaced by `prefix`. */
  function Overlay(s: seq<Byte>, prefix: seq<Byte>): (r: seq<Byte>)
    requires |prefix| <= |s|
    ensures |r| == |s| && r[..|prefix|] == prefix && r[|prefix|..] == s[|prefix|..]
  {
    prefix + s[|prefix|..]
  }

  /** The buffer after Call(verb, arg): the request written over it, then
      the reply read over that. */
  function BufferAfter(agent: Agent, before: seq<Byte>, verb: Text, arg: Slice): (after: seq<Byte>)
    requires |before| == MaxLen
    ensures |after| == MaxLen
    ensures !Fits(verb, arg) ==> after == before
    ensures Fits(verb, arg) && agent(Frame(verb, arg)).Replied? ==>
      after[..|agent(Frame(verb, arg)).reply|] == agent(Frame(verb, arg)).reply
  {
    if !Fits(verb, arg) then before
    else
      var written := Overlay(before, Frame(verb, arg));
      match agent(Frame(verb, arg))
      case Replied(b) => Overlay(written, b)
      case _ => written
  }

  /** getKey: nil, or a function from an attribute-value list to an error. */
  type KeyHook = Option<Text -> Option<Error>>

  /** The argument callNeedKey passes to getKey after a Call with outcome
      `o`, or None when getKey is not called. */
  function KeyQuery(o: Outcome, getKey: KeyHook): (q: Option<Text>)
    ensures q.Some? ==> o.err.None? && getKey.Some? && q.value == Elements(o.payload)
    ensures o.status != NeekKey && o.status != BadKey ==> q.None?
  {
    if o.err.None? && (o.status == NeekKey || o.status == BadKey) && getKey.Some?
    then Some(Elements(o.payload))
    else None
  }

  /** callNeedKey after its one Call: the Call's status and payload, with
      getKey's error, if it reports one, in place of the nil error. */
  function AfterKeyHook(o: Outcome, getKey: KeyHook): (r: Outcome)
    ensures r.status == o.status && r.payload == o.payload
    ensures KeyQuery(o, getKey).None? ==> r == o
    ensures KeyQuery(o, getKey).Some? ==>
      r.err == (if getKey.value(KeyQuery(o, getKey).value).Some? then getKey.value(KeyQuery(o, getKey).value) else o.err)
  {
    match KeyQuery(o, getKey)
    case None => o
    case Some(q) =>
      match getKey.value(q)
      case None => o
      case Some(e) => Outcome(o.status, o.payload, Some(e))
  }

  /** callNeedKey: one Call, then the key hook. */
  function NeedKeyResult(agent: Agent, getKey: KeyHook, verb: Text, arg: Slice): (o: Outcome)
    ensures o.status == CallResult(agent, verb, arg).status && o.payload == CallResult(agent, verb, arg).payload
    ensures o.err.None? ==> CallResult(agent, verb, arg).err.None?
    ensures o.err != CallResult(agent, verb, arg).err ==> o.status == BadKey
  {
    NeekKeyIsNoStatus();
    AfterKeyHook(CallResult(agent, verb, arg), getKey)
  }

  /** The connection NewRPC returns, or the error it fails with. */
  datatype Service = Mounted(agent: Agent) | Unavailable(err: Error)

  /** tokenize(s, n), which the source calls but does not define. */
  type Tokenizer = (Text, int) -> seq<Text>

  /** GetUserPassword's (user, password, err). */
  function UserPassword(getKey: KeyHook, params: Text, service: Service, tokenize: Tokenizer): (r: (Text, Text, Option<Error>))
    ensures r.2.None? <==>
      service.Mounted? &&
      NeedKeyResult(service.agent, getKey, Start, Some(params)).status == Ok &&
      NeedKeyResult(service.agent, getKey, Read, None).status == Ok &&
      |tokenize(Elements(NeedKeyResult(service.agent, getKey, Read, None).payload), 2)| == 2
    ensures r.2.None? ==>
      var up := tokenize(Elements(NeedKeyResult(service.agent, getKey, Read, None).payload), 2);
      r.0 == up[0] && r.1 == up[1]
    ensures r.2.Some? ==> r.0 == [] && r.1 == []
  {
    match service
    case Unavailable(e) => ([], [], Some(e))
    case Mounted(agent) =>
      var started := NeedKeyResult(agent, getKey, Start, Some(params));
      if started.status != Ok then ([], [], Some(Error(Ascii("rpc start failed: ") + ShowError(started.err))))
      else
        var read := NeedKeyResult(agent, getKey, Read, None);
        if read.status != Ok then ([], [], Some(Error(Ascii("rpc read failed: ") + ShowError(read.err))))
        else
          var up := tokenize(Elements(read.payload), 2);
          if |up| != 2 then ([], [], Some(Error(Ascii("bad factotum rpc response: ") + ShowList(up))))
          else (up[0], up[1], None)
  }

  /** The requests GetUserPassword writes, in order: start, if it fits,
      then read exactly when start returned "ok". */
  function UserPasswordRequests(getKey: KeyHook, params: Text, service: Service): (rs: seq<seq<Byte>>)
    ensures |rs| <= 2
    ensures service.Unavailable? ==> rs == []
    ensures service.Mounted? && NeedKeyResult(service.agent, getKey, Start, Some(params)).status == Ok ==>
      rs == [Frame(Start, Some(params)), Frame(Read, None)]
  {
    match service
    case Unavailable(_) => []
    case Mounted(agent) =>
      (if Fits(Start, Some(params)) then [Frame(Start, Some(params))] else []) +
      (if NeedKeyResult(agent, getKey, Start, Some(params)).status == Ok then [Frame(Read, None)] else [])
  }

  /** A successful GetUserPassword wrote exactly two requests, start and
      then read with a nil arg, each once; a failing one never wrote read
      unless start returned "ok". */
  lemma UserPasswordTwoRequests(getKey: KeyHook, params: Text, service: Service, tokenize: Tokenizer)
    ensures UserPassword(getKey, params, service, tokenize).2.None? ==>
      UserPasswordRequests(getKey, params, service) == [Frame(Start, Some(params)), Frame(Read, None)]
    ensures Frame(Read, None) in UserPasswordRequests(getKey, params, service) <==>
      service.Mounted? && NeedKeyResult(service.agent, getKey, Start, Some(params)).status == Ok
  {
    if service.Mounted? && NeedKeyResult(service.agent, getKey, Start, Some(params)).status != Ok {
      var rs := UserPasswordRequests(getKey, params, service);
      if Fits(Start, Some(params)) {
        assert rs == [Frame(Start, Some(params))];
        assert Frame(Start, Some(params))[0] == Start[0] != Read[0] == Frame(Read, None)[0];
      }
    }
  }

  /** No status token is a proper prefix of another. */
  lemma NoProperPrefix(s: Text, t: Text)
    requires s in ReplyStatuses && t in ReplyStatuses && s <= t
    ensures s == t
  {
    assert |s| > 0 && s[0] == t[0];
    assert BadKey[0] == 98 && Done[0] == 100 && ErrorStatus[0] == 101 && NeedKey[0] == 110;
    assert Ok[0] == 111 && Phase[0] == 112 && TooSmall[0] == 116;
  }

  /** Two tokens that both classify the same reply are the same token, so
      the order of the scan does not matter. */
  lemma MatchUnique(b: Text, s: Text, t: Text)
    requires s in ReplyStatuses && t in ReplyStatuses
    requires MatchToken(b, s).Some? && MatchToken(b, t).Some?
    ensures s == t
  {
    if |s| <= |t| {
      assert t[..|s|] == b[..|s|] == s;
      NoProperPrefix(s, t);
    } else {
      assert s[..|t|] == b[..|t|] == t;
      NoProperPrefix(t, s);
    }
  }

  lemma {:induction false} ScanFindsMatch(b: Text, k: nat, j: nat)
    requires k <= j < |ReplyStatuses|
    requires MatchToken(b, ReplyStatuses[j]).Some?
    ensures ScanFrom(b, k) == MatchToken(b, ReplyStatuses[j])
    decreases j - k
  {
    if MatchToken(b, ReplyStatuses[k]).Some? {
      MatchUnique(b, ReplyStatuses[k], ReplyStatuses[j]);
    } else {
      ScanFindsMatch(b, k + 1, j);
    }
  }

  lemma {:induction false} ScanSound(b: Text, k: nat)
    requires k <= |ReplyStatuses|
    ensures ScanFrom(b, k).Some? ==> exists j | k <= j < |ReplyStatuses| :: MatchToken(b, ReplyStatuses[j]) == ScanFrom(b, k)
    decreases |ReplyStatuses| - k
  {
    if k < |ReplyStatuses| && MatchToken(b, ReplyStatuses[k]).None? {
      ScanSound(b, k + 1);
    }
  }

  /** The classification, stated without the scan: a reply is classified
      as (s, p) exactly when s is a status token and the reply is s alone
      (p nil) or s, a space and p. */
  lemma ClassifySpec(b: Text, s: Text, p: Slice)
    ensures Classify(b) == Some(Reply(s, p)) <==>
      s in ReplyStatuses && ((b == s && p.None?) || (p.Some? && b == s + [Space] + p.value))
  {
    if s in ReplyStatuses && ((b == s && p.None?) || (p.Some? && b == s + [Space] + p.value)) {
      var j :| 0 <= j < |ReplyStatuses| && ReplyStatuses[j] == s;
      if p.Some? {
        assert b[..|s|] == s && b[|s|] == Space && b[|s| + 1..] == p.value;
        assert s <= b && |b| != |s|;
      }
      assert MatchToken(b, s) == Some(Reply(s, p));
      ScanFindsMatch(b, 0, j);
    }
  }

  /** A reply no token matches is exactly one the scan does not classify. */
  lemma ClassifyNone(b: Text)
    ensures Classify(b).None? <==> forall t | t in ReplyStatuses :: MatchToken(b, t).None?
  {
    ScanSound(b, 0);
    if exists t | t in ReplyStatuses :: MatchToken(b, t).Some? {
      var t :| t in ReplyStatuses && MatchToken(b, t).Some?;
      var j :| 0 <= j < |ReplyStatuses| && ReplyStatuses[j] == t;
      ScanFindsMatch(b, 0, j);
    }
  }

  /** A request that does not fit is refused with "request too big"; one
      that fits, up to exactly MaxLen bytes, goes to the agent as
      verb ' ' arg. */
  lemma CallFraming(agent: Agent, verb: Text, arg: Slice)
    ensures !Fits(verb, arg) ==> CallResult(agent, verb, arg) == Outcome([], None, Some(RequestTooBig))
    ensures Fits(verb, arg) ==>
      |Frame(verb, arg)| <= MaxLen && CallResult(agent, verb, arg) == Deliver(agent(Frame(verb, arg)))
  {
  }

  /** A status Call returns without error is a token and is justified by
      the reply: the reply is the token alone, or the token, a space and
      the payload, which is thus a suffix of the reply. */
  lemma CallStatusSound(agent: Agent, verb: Text, arg: Slice)
    ensures var o := CallResult(agent, verb, arg);
      o.err.None? ==>
        Fits(verb, arg) && agent(Frame(verb, arg)).Replied? &&
        o.status in ReplyStatuses &&
        var b := agent(Frame(verb, arg)).reply;
        (b == o.status && o.payload.None?) ||
        (o.payload.Some? && b == o.status + [Space] + o.payload.value && IsSuffix(o.payload.value, b))
    ensures var o := CallResult(agent, verb, arg);
      o.err.Some? ==> o.status == [] && o.payload.None?
  {
    var o := CallResult(agent, verb, arg);
    if o.err.None? {
      var b := agent(Frame(verb, arg)).reply;
      ClassifySpec(b, o.status, o.payload);
      if o.payload.Some? {
        assert b[|b| - |o.payload.value|..] == o.payload.value;
      }
    }
  }

  /** Any reply no token matches is an error carrying the reply. */
  lemma CallBadResponse(agent: Agent, verb: Text, arg: Slice)
    requires Fits(verb, arg) && agent(Frame(verb, arg)).Replied?
    ensures var b := agent(Frame(verb, arg)).reply;
      (forall t | t in ReplyStatuses :: MatchToken(b, t).None?) <==>
      CallResult(agent, verb, arg) == Outcome([], None, Some(Error(Ascii("bad rpc response: ") + b)))
  {
    ClassifyNone(agent(Frame(verb, arg)).reply);
  }

  /** "error" is returned as an ordinary status, not as a failure. */
  lemma CallReturnsErrorStatus(agent: Agent, verb: Text, arg: Slice, msg: seq<Byte>)
    requires Fits(verb, arg) && agent(Frame(verb, arg)).Replied?
    requires agent(Frame(verb, arg)).reply == ErrorStatus + [Space] + msg
    ensures CallResult(agent, verb, arg) == Outcome(ErrorStatus, Some(msg), None)
  {
    ClassifySpec(ErrorStatus + [Space] + msg, ErrorStatus, Some(msg));
  }

  /** Because of the misspelt literal, a real "needkey" reply never reaches
      getKey: callNeedKey returns exactly what Call returned. */
  lemma NeedKeyReplyIgnored(agent: Agent, getKey: KeyHook, verb: Text, arg: Slice, rest: Slice)
    requires Fits(verb, arg)
    requires agent(Frame(verb, arg)).Replied?
    requires agent(Frame(verb, arg)).reply == if rest.None? then NeedKey else NeedKey + [Space] + rest.value
    ensures CallResult(agent, verb, arg) == Outcome(NeedKey, rest, None)
    ensures KeyQuery(CallResult(agent, verb, arg), getKey).None?
    ensures NeedKeyResult(agent, getKey, verb, arg) == CallResult(agent, verb, arg)
  {
    ClassifySpec(agent(Frame(verb, arg)).reply, NeedKey, rest);
    NeedKeyIsNotHooked();
  }

  /** "needkey" is neither of the statuses callNeedKey hands to getKey. */
  lemma NeedKeyIsNotHooked()
    ensures NeedKey != NeekKey && NeedKey != BadKey
  {
    assert NeedKey[3] != NeekKey[3] && NeedKey[0] != BadKey[0];
  }

  /** The literal callNeedKey tests, "neekkey", is no status token. */
  lemma NeekKeyIsNoStatus()
    ensures NeekKey !in ReplyStatuses
  {
    assert NeekKey[0] == 110 && NeekKey[3] == 107;
    assert NeedKey[3] == 100;
    assert BadKey[0] == 98 && Done[0] == 100 && ErrorStatus[0] == 101;
    assert Ok[0] == 111 && Phase[0] == 112 && TooSmall[0] == 116;
  }

  /** getKey runs only after a "badkey" status, only when it is non-nil, and
      on the payload: the misspelt "neekkey" is never a status Call returns. */
  lemma KeyHookOnlyOnBadKey(agent: Agent, getKey: KeyHook, verb: Text, arg: Slice)
    ensures var o := CallResult(agent, verb, arg);
      KeyQuery(o, getKey).Some? <==> o.err.None? && o.status == BadKey && getKey.Some?
    ensures var o := CallResult(agent, verb, arg);
      KeyQuery(o, getKey).Some? ==> KeyQuery(o, getKey).value == Elements(o.payload)
  {
    CallStatusSound(agent, verb, arg);
    NeekKeyIsNoStatus();
  }

  /** A "badkey" reply with a non-nil getKey: getKey is called once with the
      attribute list, and its error, if any, is returned beside the status. */
  lemma BadKeyRunsHook(agent: Agent, f: Text -> Option<Error>, verb: Text, arg: Slice, attrs: seq<Byte>)
    requires Fits(verb, arg) && agent(Frame(verb, arg)).Replied?
    requires agent(Frame(verb, arg)).reply == BadKey + [Space] + attrs
    ensures KeyQuery(CallResult(agent, verb, arg), Some(f)) == Some(attrs)
    ensures NeedKeyResult(agent, Some(f), verb, arg) == Outcome(BadKey, Some(attrs), f(attrs))
  {
    ClassifySpec(BadKey + [Space] + attrs, BadKey, Some(attrs));
  }

  /** getKey cannot turn a failing GetUserPassword into a succeeding one,
      nor change what a succeeding one returns: its error only ever
      replaces the nil error beside a "badkey" status, which fails the "ok"
      test already. (That getKey may install a key in the agent is outside
      the model.) */
  lemma KeyHookCannotRescue(g1: KeyHook, g2: KeyHook, params: Text, service: Service, tokenize: Tokenizer)
    requires UserPassword(g1, params, service, tokenize).2.None?
    ensures UserPassword(g2, params, service, tokenize) == UserPassword(g1, params, service, tokenize)
  {
  }

  /** A "badkey" reply to start with no getKey fails with a nil cause. */
  lemma BadKeyWithoutHookFails(agent: Agent, params: Text, tokenize: Tokenizer)
    requires Fits(Start, Some(params)) && agent(Frame(Start, Some(params))) == Replied(BadKey)
    ensures UserPassword(None, params, Mounted(agent), tokenize)
         == ([], [], Some(Error(Ascii("rpc start failed: ") + Ascii("<nil>"))))
  {
    ClassifySpec(BadKey, BadKey, None);
    assert BadKey[0] != Ok[0];
  }

  /** RPC: an opened factotum rpc file and its message buffer. */
  class RPC {
    /** The rpc file, as the agent behind it. */
    const agent: Agent
    const buf: array<Byte>
    /** Every request written to the rpc file so far, in order. */
    ghost var requests: seq<seq<Byte>>

    ghost predicate Valid()
      reads this
    {
      buf.Length == MaxLen
    }

    constructor (agent: Agent)
      ensures Valid() && this.agent == agent && fresh(buf) && requests == []
    {
      this.agent := agent;
      buf := new Byte[MaxLen];
      requests := [];
    }

    /** Go's copy(buf[at:], src): copies as much of src as fits. */
    method CopyAt(at: nat, src: seq<Byte>) returns (k: nat)
      requires at <= buf.Length
      modifies buf
      ensures k == if |src| < buf.Length - at then |src| else buf.Length - at
      ensures buf[..] == old(buf[..])[..at] + src[..k] + old(buf[..])[at + k..]
    {
      k := if |src| < buf.Length - at then |src| else buf.Length - at;
      forall j | at <= j < at + k {
        buf[j] := src[j - at];
      }
    }

    /** The framing step of Call: verb, a space and arg copied to the
        front of the buffer; `i` is the request's length. */
    method PutFrame(verb: Text, data: seq<Byte>) returns (i: nat)
      requires Valid() && |verb| + 1 + |data| <= MaxLen
      modifies buf
      ensures i == |verb| + 1 + |data|
      ensures buf[..] == Overlay(old(buf[..]), verb + [Space] + data)
    {
      i := CopyAt(0, verb);
      var k := CopyAt(i, [Space]);
      i := i + k;
      k := CopyAt(i, data);
      i := i + k;
    }

    /** Call: one request, one reply, classified. */
    method Call(verb: Text, arg: Slice) returns (o: Outcome)
      requires Valid()
      modifies this, buf
      ensures Valid()
      ensures o == CallResult(agent, verb, arg)
      ensures requests == old(requests) + if Fits(verb, arg) then [Frame(verb, arg)] else []
      ensures buf[..] == BufferAfter(agent, old(buf[..]), verb, arg)
    {
      var data := Elements(arg);
      if |verb| + 1 + |data| > MaxLen {
        return Outcome([], None, Some(RequestTooBig));
      }
      var i := PutFrame(verb, data);
      requests := requests + [buf[..i]];
      var x := agent(buf[..i]);
      if x.WriteFailed? {
        return Outcome([], None, Some(x.writeErr));
      }
      if x.ReadFailed? {
        return Outcome([], None, Some(x.readErr));
      }
      ghost var written := buf[..];
      var n := CopyAt(0, x.reply);
      assert buf[..] == Overlay(written, x.reply);
      var b := buf[..n];
      assert b == x.reply;
      for j := 0 to |ReplyStatuses|
        invariant Classify(b) == ScanFrom(b, j)
      {
        var s := ReplyStatuses[j];
        var ns := |s|;
        if s <= b {
          if |b| == ns {
            return Outcome(b, None, None);
          }
          if b[ns] == Space {
            return Outcome(b[..ns], Some(b[ns + 1..]), None);
          }
        }
      }
      return Outcome([], None, Some(BadResponse(b)));
    }

    /** callNeedKey: one Call, then getKey once if the status asks for it.
        At most one request reaches the agent: there is no retry. */
    method CallNeedKey(getKey: KeyHook, verb: Text, arg: Slice) returns (o: Outcome, ghost keyQuery: Option<Text>)
      requires Valid()
      modifies this, buf
      ensures Valid()
      ensures o == NeedKeyResult(agent, getKey, verb, arg)
      ensures keyQuery == KeyQuery(CallResult(agent, verb, arg), getKey)
      ensures requests == old(requests) + if Fits(verb, arg) then [Frame(verb, arg)] else []
      ensures buf[..] == BufferAfter(agent, old(buf[..]), verb, arg)
    {
      o := Call(verb, arg);
      keyQuery := None;
      if o.err.Some? {
        return;
      }
      if o.status == NeekKey || o.status == BadKey {
        if getKey.None? {
          return;
        }
        keyQuery := Some(Elements(o.payload));
        var err := getKey.value(Elements(o.payload));
        if err.Some? {
          o := Outcome(o.status, o.payload, err);
          return;
        }
      }
    }
  }

  /** GetUserPassword: start, then read, then split the reply into user and
      password. */
  method GetUserPassword(getKey: KeyHook, params: Text, service: Service, tokenize: Tokenizer)
    returns (user: Text, password: Text, err: Option<Error>, ghost requests: seq<seq<Byte>>)
    ensures (user, password, err) == UserPassword(getKey, params, service, tokenize)
    ensures requests == UserPasswordRequests(getKey, params, service)
  {
    if service.Unavailable? {
      return [], [], Some(service.err), [];
    }
    var rpc := new RPC(service.agent);
    ghost var keyQuery;
    var o;
    o, keyQuery := rpc.CallNeedKey(getKey, Start, Some(params));
    requests := rpc.requests;
    assert requests == if Fits(Start, Some(params)) then [Frame(Start, Some(params))] else [];
    if o.status != Ok {
      return [], [], Some(Error(Ascii("rpc start failed: ") + ShowError(o.err))), requests;
    }
    o, keyQuery := rpc.CallNeedKey(getKey, Read, None);
    requests := rpc.requests;
    if o.status != Ok {
      return [], [], Some(Error(Ascii("rpc read failed: ") + ShowError(o.err))), requests;
    }
    var up := tokenize(Elements(o.payload), 2);
    if |up| != 2 {
      return [], [], Some(Error(Ascii("bad factotum rpc response: ") + ShowList(up))), requests;
    }
    return up[0], up[1], None, requests;
  }
}
