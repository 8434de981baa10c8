/** The read gate and the host-name lookup of SniHandler.

    The handler's fields are `suppressRead`, `readPending`, `handshaken`,
    `hostname` and `selectedContext`. `decode` runs the extractor and starts a
    lookup; a lookup answered at once is applied at once, a pending one
    suppresses reads until its completion listener runs; `read` swallows read
    requests while reads are suppressed. The futures, the executor, the
    pipeline and the TLS handler factory are external: the answer of the
    mapping is a parameter of Decode, the listener is the event method
    Complete, and what the handler does to the channel is recorded as a ghost
    trace of events.

    Each method of the class is specified by a pure step function over a
    snapshot State of its fields; the lemmas relate sequences of steps.
 */
module Sni {
  import opened ClientHello

  /** Stand-in for an SslContext: the credential a lookup yields. */
  datatype SslContext = SslContext(id: nat)

  /** What a lookup future completes with. */
  datatype LookupResult = Success(context: SslContext) | Failure

  /** What mapping.map returns: a future already done, or a pending one. */
  datatype Reply = Done(result: LookupResult) | Pending

  /** What the handler does to its channel, in order. */
  datatype Event =
    | LookupStarted(key: Option<string>)     // mapping.map(hostname, promise)
    | ReadForwarded                          // ctx.read()
    | PipelineReplaced(context: SslContext)  // the SslHandler takes this handler's place
    | DecodeFailed                           // decode throws a DecoderException
    | ExceptionFired                         // ctx.fireExceptionCaught(DecoderException)

  predicate IsLookup(e: Event) { e.LookupStarted? }
  predicate IsRead(e: Event) { e.ReadForwarded? }
  predicate IsReplace(e: Event) { e.PipelineReplaced? }
  predicate IsFired(e: Event) { e.ExceptionFired? }

  /** Number of the events of `t` that satisfy `p`. */
  function Count(t: seq<Event>, p: Event -> bool): nat
  {
    if t == [] then 0 else (if p(t[0]) then 1 else 0) + Count(t[1..], p)
  }

  /** A snapshot of the handler: its fields, the number of completion
      listeners registered and not yet run, and the events so far. */
  datatype State = State(
    suppressRead: bool,
    readPending: bool,
    handshaken: bool,
    hostname: Option<string>,
    selectedContext: Option<SslContext>,
    listeners: nat,
    trace: seq<Event>)

  /** A freshly constructed handler. */
  const Initial := State(false, false, false, None, None, 0, [])

  /** What every reachable state satisfies: a deferred read implies that reads
      are suppressed, suppression implies an outstanding listener, and the
      pipeline has only been replaced once detection was final. */
  ghost predicate Inv(s: State)
  {
    && (s.readPending ==> s.suppressRead)
    && (s.suppressRead ==> s.listeners > 0)
    && (forall i :: 0 <= i < |s.trace| && s.trace[i].PipelineReplaced? ==> s.handshaken)
  }

  /** The lookup key decode passes to the mapping: the extracted host name run
      through `normalize` (UTF-8 decoding, IDN.toASCII and toLowerCase), or
      None. */
  function Key(buf: seq<byte>, normalize: seq<byte> -> string): Option<string>
  {
    match Extract(buf).Host()
    case None => None
    case Some(raw) => Some(normalize(raw))
  }

  /** selectContext: records the context and hands over only once handshaken. */
  function SelectStep(s: State, context: SslContext): State
  {
    s.(selectedContext := Some(context),
       trace := s.trace + if s.handshaken then [PipelineReplaced(context)] else [])
  }

  /** decode(ctx, in, out) with readable bytes `buf`; `lookup` gives the future
      mapping.map returns for a key at this call. */
  function DecodeStep(s: State, buf: seq<byte>, normalize: seq<byte> -> string,
                      lookup: Option<string> -> Reply): State
  {
    if s.handshaken || |buf| < RecordHeaderLength then s
    else
      var key := Key(buf, normalize);
      var looked := s.(handshaken := s.handshaken || Extract(buf).Final(),
                       hostname := key,
                       trace := s.trace + [LookupStarted(key)]);
      match lookup(key)
      case Done(Success(context)) => SelectStep(looked, context)
      case Done(Failure) => looked.(trace := looked.trace + [DecodeFailed])
      case Pending => looked.(suppressRead := true, listeners := looked.listeners + 1)
  }

  /** Whether decode throws: a lookup that has already failed. */
  function DecodeThrows(s: State, buf: seq<byte>, normalize: seq<byte> -> string,
                        lookup: Option<string> -> Reply): bool
  {
    !s.handshaken && |buf| >= RecordHeaderLength && lookup(Key(buf, normalize)) == Done(Failure)
  }

  /** read(ctx): swallowed and remembered while suppressed, forwarded otherwise. */
  function ReadStep(s: State): State
  {
    if s.suppressRead then s.(readPending := true)
    else s.(trace := s.trace + [ReadForwarded])
  }

  /** The completion listener: lift the suppression, apply the result, then
      replay at most one deferred read. */
  function CompleteStep(s: State, result: LookupResult): State
    requires s.listeners > 0
  {
    var resumed := s.(suppressRead := false, listeners := s.listeners - 1);
    var applied := match result
      case Success(context) => SelectStep(resumed, context)
      case Failure => resumed.(trace := resumed.trace + [ExceptionFired]);
    if applied.readPending then applied.(readPending := false, trace := applied.trace + [ReadForwarded])
    else applied
  }

  /** `n` read requests in a row. */
  function Reads(s: State, n: nat): State
    decreases n
  {
    if n == 0 then s else Reads(ReadStep(s), n - 1)
  }

  /** AsyncMappingAdapter: a synchronous mapping (Failure: it threw) wrapped so
      that every future it returns is already complete. */
  function Adapter(mapping: Option<string> -> LookupResult): (async: Option<string> -> Reply)
    ensures forall key :: async(key).Done? && async(key).result == mapping(key)
  {
    key => Done(mapping(key))
  }

  class SniHandler {
    /** Host-name normalisation; fixed for the handler's lifetime. */
    const normalize: seq<byte> -> string

    var suppressRead: bool
    var readPending: bool
    var handshaken: bool
    var hostname: Option<string>
    var selectedContext: Option<SslContext>

    /** Completion listeners registered and not yet run. */
    ghost var listeners: nat
    /** What the handler has done to its channel. */
    ghost var trace: seq<Event>

    ghost function Model(): State
      reads this
    {
      State(suppressRead, readPending, handshaken, hostname, selectedContext, listeners, trace)
    }

    ghost predicate Valid()
      reads this
    {
      Inv(Model())
    }

    constructor (normalize: seq<byte> -> string)
      ensures Valid() && Model() == Initial && this.normalize == normalize
    {
      this.normalize := normalize;
      suppressRead, readPending, handshaken := false, false, false;
      hostname, selectedContext := None, None;
      listeners, trace := 0, [];
    }

    /** The selected host name. */
    function Hostname(): Option<string>
      reads this
    {
      hostname
    }

    /** The selected context. */
    function Context(): Option<SslContext>
      reads this
    {
      selectedContext
    }

    method Decode(buf: seq<byte>, lookup: Option<string> -> Reply) returns (thrown: bool)
      requires Valid()
      modifies this
      ensures Valid()
      ensures Model() == DecodeStep(old(Model()), buf, normalize, lookup)
      ensures thrown == DecodeThrows(old(Model()), buf, normalize, lookup)
    {
      StepsPreserveInv(Model(), buf, normalize, lookup);
      thrown := false;
      if !handshaken && |buf| >= RecordHeaderLength {
        var host;
        host, handshaken := SniHostNameFromHandshakeInfo(buf, handshaken);
        var key := if host.Some? then Some(normalize(host.value)) else None;
        assert key == Key(buf, normalize);
        hostname := key;
        trace := trace + [LookupStarted(key)];
        var future := lookup(key);
        match future {
          case Done(Success(context)) =>
            SelectContext(context);
          case Done(Failure) =>
            trace := trace + [DecodeFailed];
            thrown := true;
          case Pending =>
            suppressRead := true;
            listeners := listeners + 1;
        }
      }
    }

    method SelectContext(context: SslContext)
      modifies this
      ensures Model() == SelectStep(old(Model()), context)
    {
      selectedContext := Some(context);
      if handshaken {
        trace := trace + [PipelineReplaced(context)];
      }
    }

    method Read()
      requires Valid()
      modifies this
      ensures Valid()
      ensures Model() == ReadStep(old(Model()))
    {
      StepsPreserveInv(Model(), [], normalize, _ => Pending);
      if suppressRead {
        readPending := true;
      } else {
        trace := trace + [ReadForwarded];
      }
    }

    /** The anonymous completion listener registered by decode. */
    method Complete(result: LookupResult)
      requires Valid() && listeners > 0
      modifies this
      ensures Valid()
      ensures Model() == CompleteStep(old(Model()), result)
    {
      StepsPreserveInv(Model(), [], normalize, _ => Pending);
      suppressRead := false;
      listeners := listeners - 1;
      match result {
        case Success(context) =>
          SelectContext(context);
        case Failure =>
          trace := trace + [ExceptionFired];
      }
      if readPending {
        readPending := false;
        trace := trace + [ReadForwarded];
      }
    }
  }

  lemma {:induction false} CountAppend(a: seq<Event>, b: seq<Event>, p: Event -> bool)
    ensures Count(a + b, p) == Count(a, p) + Count(b, p)
  {
    if a == [] {
      assert a + b == b;
    } else {
      assert (a + b)[1..] == a[1..] + b;
      CountAppend(a[1..], b, p);
    }
  }

  /** Every step keeps the invariant, and none sets `handshaken` back to false. */
  lemma StepsPreserveInv(s: State, buf: seq<byte>, normalize: seq<byte> -> string,
                         lookup: Option<string> -> Reply)
    requires Inv(s)
    ensures Inv(DecodeStep(s, buf, normalize, lookup)) && Inv(ReadStep(s))
    ensures s.listeners > 0 ==> Inv(CompleteStep(s, LookupResult.Failure))
    ensures forall context :: s.listeners > 0 ==> Inv(CompleteStep(s, Success(context)))
    ensures s.handshaken ==> DecodeStep(s, buf, normalize, lookup).handshaken && ReadStep(s).handshaken
    ensures s.handshaken && s.listeners > 0 ==> forall r :: CompleteStep(s, r).handshaken
  {
  }

  /** An open-gate decode appends its lookup event right after the old trace,
      and no other lookup event. */
  lemma DecodeAppendsLookup(s: State, buf: seq<byte>, normalize: seq<byte> -> string,
                            lookup: Option<string> -> Reply)
    requires !s.handshaken && |buf| >= RecordHeaderLength
    ensures var t := DecodeStep(s, buf, normalize, lookup);
      && |t.trace| > |s.trace| && t.trace[|s.trace|] == LookupStarted(Key(buf, normalize))
      && Count(t.trace, IsLookup) == Count(s.trace, IsLookup) + 1
  {
    var key := Key(buf, normalize);
    var t := DecodeStep(s, buf, normalize, lookup);
    var suffix := t.trace[|s.trace| + 1..];
    assert t.trace == s.trace + [LookupStarted(key)] + suffix;
    assert Count(suffix, IsLookup) == 0;
    CountAppend(s.trace, [LookupStarted(key)], IsLookup);
    CountAppend(s.trace + [LookupStarted(key)], suffix, IsLookup);
  }

  /** decode does nothing once handshaken or with fewer than 5 readable bytes;
      otherwise it consults the mapping exactly once, with the normalised
      extracted host name, and stores that name. */
  lemma DecodeLooksUpOnce(s: State, buf: seq<byte>, normalize: seq<byte> -> string,
                          lookup: Option<string> -> Reply)
    ensures s.handshaken || |buf| < RecordHeaderLength ==> DecodeStep(s, buf, normalize, lookup) == s
    ensures !s.handshaken && |buf| >= RecordHeaderLength ==>
      var t := DecodeStep(s, buf, normalize, lookup);
      && (t.hostname.Some? <==> Extract(buf).HostName?)
      && (Extract(buf).HostName? ==> t.hostname == Some(normalize(Extract(buf).name)))
      && t.handshaken == Extract(buf).Final()
      && |t.trace| > |s.trace| && t.trace[|s.trace|] == LookupStarted(Key(buf, normalize))
      && Count(t.trace, IsLookup) == Count(s.trace, IsLookup) + 1
  {
    if !s.handshaken && |buf| >= RecordHeaderLength {
      assert DecodeStep(s, buf, normalize, lookup).hostname == Key(buf, normalize);
      DecodeAppendsLookup(s, buf, normalize, lookup);
    }
  }

  /** A lookup answered at once never touches the read flags and registers no
      listener; success selects its context and, when detection is final,
      replaces the pipeline handler once; failure makes decode throw. */
  lemma SynchronousLookup(s: State, buf: seq<byte>, normalize: seq<byte> -> string,
                          lookup: Option<string> -> Reply)
    requires !s.handshaken && |buf| >= RecordHeaderLength
    requires lookup(Key(buf, normalize)).Done?
    ensures var t := DecodeStep(s, buf, normalize, lookup);
      && t.suppressRead == s.suppressRead && t.readPending == s.readPending
      && t.listeners == s.listeners
      && (lookup(Key(buf, normalize)).result.Success? <==> !DecodeThrows(s, buf, normalize, lookup))
      && (lookup(Key(buf, normalize)).result.Success? ==>
            t.selectedContext == Some(lookup(Key(buf, normalize)).result.context))
      && (lookup(Key(buf, normalize)).result.Failure? ==> t.selectedContext == s.selectedContext)
      && Count(t.trace, IsReplace) == Count(s.trace, IsReplace)
           + if lookup(Key(buf, normalize)).result.Success? && Extract(buf).Final() then 1 else 0
  {
    var key := Key(buf, normalize);
    var t := DecodeStep(s, buf, normalize, lookup);
    var tail := t.trace[|s.trace| + 1..];
    assert t.trace == s.trace + [LookupStarted(key)] + tail;
    CountAppend(s.trace, [LookupStarted(key)], IsReplace);
    CountAppend(s.trace + [LookupStarted(key)], tail, IsReplace);
  }

  /** The handoff a `Mapping` gives through AsyncMappingAdapter: a fresh handler
      that reads a final ClientHello whose key maps to a context looks it up and
      replaces the pipeline handler with that context, within the one decode. */
  lemma SyncHandoff(buf: seq<byte>, normalize: seq<byte> -> string,
                    mapping: Option<string> -> LookupResult, context: SslContext)
    requires |buf| >= RecordHeaderLength && Extract(buf).Final()
    requires mapping(Key(buf, normalize)) == Success(context)
    ensures var t := DecodeStep(Initial, buf, normalize, Adapter(mapping));
      && t.trace == [LookupStarted(Key(buf, normalize)), PipelineReplaced(context)]
      && t.selectedContext == Some(context) && t.handshaken && !t.suppressRead
  {
  }

  /** With AsyncMappingAdapter, decode never suppresses reads. */
  lemma AdapterNeverSuppresses(s: State, buf: seq<byte>, normalize: seq<byte> -> string,
                               mapping: Option<string> -> LookupResult)
    ensures DecodeStep(s, buf, normalize, Adapter(mapping)).suppressRead == s.suppressRead
    ensures DecodeStep(s, buf, normalize, Adapter(mapping)).listeners == s.listeners
  {
    if !s.handshaken && |buf| >= RecordHeaderLength {
      assert Adapter(mapping)(Key(buf, normalize)).Done?;
      SynchronousLookup(s, buf, normalize, Adapter(mapping));
    }
  }

  /** A pending lookup suppresses reads and registers one listener. */
  lemma PendingLookup(s: State, buf: seq<byte>, normalize: seq<byte> -> string,
                      lookup: Option<string> -> Reply)
    requires !s.handshaken && |buf| >= RecordHeaderLength
    requires lookup(Key(buf, normalize)) == Pending
    ensures var t := DecodeStep(s, buf, normalize, lookup);
      && t.suppressRead && t.listeners == s.listeners + 1
      && t.readPending == s.readPending && t.selectedContext == s.selectedContext
      && !DecodeThrows(s, buf, normalize, lookup)
  {
  }

  /** A read request is forwarded exactly when reads are not suppressed, and
      otherwise remembered. */
  lemma ReadGate(s: State)
    ensures Count(ReadStep(s).trace, IsRead) == Count(s.trace, IsRead) + (if s.suppressRead then 0 else 1)
    ensures ReadStep(s).readPending == (s.readPending || s.suppressRead)
    ensures ReadStep(s).suppressRead == s.suppressRead
  {
    if !s.suppressRead {
      CountAppend(s.trace, [ReadForwarded], IsRead);
    }
  }

  /** While reads are suppressed, any number of read requests forward nothing
      and leave one deferred read behind. */
  lemma {:induction false} SuppressedReads(s: State, n: nat)
    requires s.suppressRead
    ensures Reads(s, n) == s.(readPending := s.readPending || n > 0)
    decreases n
  {
    if n > 0 {
      SuppressedReads(ReadStep(s), n - 1);
    }
  }

  /** The suspension window: after a pending lookup, `n` read requests and then
      the completion forward exactly one read if any was deferred, and that read
      comes last, after the context is applied. */
  lemma SuspensionWindow(s: State, n: nat, result: LookupResult)
    requires Inv(s) && s.suppressRead
    ensures Reads(s, n).listeners > 0
    ensures var t := CompleteStep(Reads(s, n), result);
      && !t.suppressRead && !t.readPending
      && Count(t.trace, IsRead) == Count(s.trace, IsRead) + (if s.readPending || n > 0 then 1 else 0)
      && (s.readPending || n > 0 ==> t.trace[|t.trace| - 1] == ReadForwarded)
      && Count(t.trace, IsReplace) == Count(s.trace, IsReplace) + (if result.Success? && s.handshaken then 1 else 0)
      && Count(t.trace, IsFired) == Count(s.trace, IsFired) + (if result.Failure? then 1 else 0)
      && (result.Success? ==> t.selectedContext == Some(result.context))
  {
    SuppressedReads(s, n);
    var w := Reads(s, n);
    var t := CompleteStep(w, result);
    var effect := match result
      case Success(context) => if s.handshaken then [PipelineReplaced(context)] else []
      case Failure => [ExceptionFired];
    var replay := if s.readPending || n > 0 then [ReadForwarded] else [];
    assert t.trace == s.trace + effect + replay;
    CountAppend(s.trace, effect, IsRead);
    CountAppend(s.trace + effect, replay, IsRead);
    CountAppend(s.trace, effect, IsReplace);
    CountAppend(s.trace + effect, replay, IsReplace);
    CountAppend(s.trace, effect, IsFired);
    CountAppend(s.trace + effect, replay, IsFired);
  }

  /** The intended flow with an asynchronous mapping: a complete ClientHello with
      a host name, a pending lookup, `n` read requests, then success. The
      handshake is handed over once, and the one replayed read follows it. */
  lemma AsyncHandoff(normalize: seq<byte> -> string, buf: seq<byte>, name: seq<byte>, n: nat,
                     context: SslContext)
    requires Extract(buf) == HostName(name)
    ensures Reads(DecodeStep(Initial, buf, normalize, _ => Pending), n).listeners > 0
    ensures var t := CompleteStep(Reads(DecodeStep(Initial, buf, normalize, _ => Pending), n), Success(context));
      && t.trace == [LookupStarted(Some(normalize(name))), PipelineReplaced(context)]
                    + (if n > 0 then [ReadForwarded] else [])
      && t.hostname == Some(normalize(name)) && t.selectedContext == Some(context)
      && t.handshaken && !t.suppressRead && !t.readPending
  {
    var _ := HostNameLocation(buf, name);
    var s := DecodeStep(Initial, buf, normalize, _ => Pending);
    assert s.trace == [LookupStarted(Some(normalize(name)))];
    SuppressedReads(s, n);
  }

  /** Nothing limits lookups to one per connection: decode consults the mapping
      on every call while not handshaken, incomplete records included: an
      incomplete record followed by a complete one starts two lookups, and if
      both are pending, both completions replace the pipeline. */
  lemma RepeatedLookups(normalize: seq<byte> -> string, partial: seq<byte>, full: seq<byte>,
                        first: SslContext, second: SslContext)
    requires Extract(partial) == Incomplete && Extract(full).Final() && |full| >= RecordHeaderLength
    ensures DecodeStep(DecodeStep(Initial, partial, normalize, _ => Pending), full, normalize, _ => Pending).listeners == 2
    ensures var s := DecodeStep(DecodeStep(Initial, partial, normalize, _ => Pending), full, normalize, _ => Pending);
      && CompleteStep(s, Success(first)).listeners == 1
      && CompleteStep(CompleteStep(s, Success(first)), Success(second)).trace
         == [LookupStarted(None), LookupStarted(Key(full, normalize)),
             PipelineReplaced(first), PipelineReplaced(second)]
  {
    RecordHeaderOutcomes(partial);
  }
}
