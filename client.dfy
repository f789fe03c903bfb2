/** The message cache of the mPlane HTTP client: capabilities with their
    label index, pending receipts and results, the dispatch of incoming
    messages, and the normalised capability path. */
module Client {
  import opened Wrappers

  const CapabilityPathElem: string := "capability"

  /** The messages the client sees. A capability carries its label (empty
      when it has none) as `name`; receipts and results carry their token; `id`
      stands for the rest of the message. */
  datatype Message =
    | Capability(name: string, id: nat)
    | Receipt(token: string, id: nat)
    | ResultMsg(token: string, id: nat)
    | Exception(token: string, errmsg: string)
    | Envelope(contents: seq<Message>)
    | Other(kind: string)

  // ---------------------------------------------------------------------
  // The capability path

  /** The stored capability path: a leading "/" is added when missing, and
      no path means "/capability"; indexing an empty path fails. */
  function CapPath(capurl: Option<string>): (r: Result<string>)
    ensures r.Err? <==> capurl == Some("")
  {
    match capurl
    case None => Ok("/" + CapabilityPathElem)
    case Some(p) =>
      if |p| == 0 then Err(IndexOutOfRange)
      else if p[0] != '/' then Ok("/" + p)
      else Ok(p)
  }

  /** The stored path always starts with "/", keeps the given path after
      it, and normalising it again changes nothing. */
  lemma CapPathNormal(capurl: Option<string>)
    ensures var r := CapPath(capurl);
      && (r.Ok? ==> |r.value| > 0 && r.value[0] == '/')
      && (capurl == None ==> r == Ok("/capability"))
      && (capurl.Some? && r.Ok? ==>
            r.value == capurl.value || r.value == "/" + capurl.value)
      && (r.Ok? ==> CapPath(Some(r.value)) == r)
  {
    assert "/" + CapabilityPathElem == "/capability";
  }

  // ---------------------------------------------------------------------
  // Python list indexing

  /** s[i] in Python: a negative index counts from the end. */
  function PyIndex<T>(s: seq<T>, i: int): (r: Result<T>)
    ensures r.Ok? <==> -|s| <= i < |s|
    ensures 0 <= i < |s| ==> r == Ok(s[i])
    ensures -|s| <= i < 0 ==> r == Ok(s[|s| + i])
  {
    if 0 <= i < |s| then Ok(s[i])
    else if -|s| <= i < 0 then Ok(s[|s| + i])
    else Err(IndexOutOfRange)
  }

  // ---------------------------------------------------------------------
  // The cache as a value

  datatype CacheState = CacheState(capabilities: seq<Message>, caplabels: map<string, Message>,
                                   receipts: seq<Message>, results: seq<Message>)

  function Empty(): CacheState
  {
    CacheState([], map[], [], [])
  }

  /** The tokens of a list of receipts or results, in order. */
  function Tokens(ms: seq<Message>): (ts: seq<string>)
    requires forall i :: 0 <= i < |ms| ==> ms[i].Receipt? || ms[i].ResultMsg?
    ensures |ts| == |ms|
    ensures forall i :: 0 <= i < |ms| ==> ts[i] == ms[i].token
  {
    if ms == [] then [] else [ms[0].token] + Tokens(ms[1..])
  }

  predicate AllReceipts(ms: seq<Message>)
  {
    forall i :: 0 <= i < |ms| ==> ms[i].Receipt?
  }

  predicate AllResults(ms: seq<Message>)
  {
    forall i :: 0 <= i < |ms| ==> ms[i].ResultMsg?
  }

  /** No two messages of the list share a token. */
  predicate DistinctTokens(ms: seq<Message>)
    requires forall i :: 0 <= i < |ms| ==> ms[i].Receipt? || ms[i].ResultMsg?
  {
    forall i, j :: 0 <= i < j < |ms| ==> ms[i].token != ms[j].token
  }

  /** What the cache keeps true: each list holds its own kind, tokens are
      not repeated, and the label index maps non-empty labels to cached
      capabilities carrying that label. */
  predicate ValidCache(st: CacheState)
  {
    && (forall i :: 0 <= i < |st.capabilities| ==> st.capabilities[i].Capability?)
    && (forall l :: l in st.caplabels ==>
          l != "" && st.caplabels[l] in st.capabilities && st.caplabels[l] == Capability(l, st.caplabels[l].id))
    && AllReceipts(st.receipts) && DistinctTokens(st.receipts)
    && AllResults(st.results) && DistinctTokens(st.results)
  }

  /** add_capability: append, and index it under its label when it has one. */
  function AddCapabilityTo(st: CacheState, cap: Message): CacheState
    requires cap.Capability?
  {
    st.(capabilities := st.capabilities + [cap],
        caplabels := if cap.name != "" then st.caplabels[cap.name := cap] else st.caplabels)
  }

  /** clear_capabilities. */
  function Cleared(st: CacheState): CacheState
  {
    st.(capabilities := [], caplabels := map[])
  }

  /** add_receipt: append unless a cached receipt has the same token. */
  function AddReceiptTo(st: CacheState, r: Message): CacheState
    requires r.Receipt? && AllReceipts(st.receipts)
  {
    if r.token in Tokens(st.receipts) then st else st.(receipts := st.receipts + [r])
  }

  /** _delete_receipt_for: the receipts whose token differs, in order. */
  function Without(rs: seq<Message>, token: string): (r: seq<Message>)
    requires AllReceipts(rs)
    ensures AllReceipts(r) && |r| <= |rs|
  {
    if rs == [] then []
    else (if rs[0].token == token then [] else [rs[0]]) + Without(rs[1..], token)
  }

  /** add_result: a result with a new token is appended and the receipts
      for it dropped; a known token changes nothing. */
  function AddResultTo(st: CacheState, r: Message): CacheState
    requires r.ResultMsg? && AllResults(st.results) && AllReceipts(st.receipts)
  {
    if r.token in Tokens(st.results) then st
    else st.(results := st.results + [r], receipts := Without(st.receipts, r.token))
  }

  /** measurements(): the results, then the receipts. */
  function Measurements(st: CacheState): seq<Message>
  {
    st.results + st.receipts
  }

  /** measurement_at(index), with the client as its receiver: an index
      past the results is taken from the receipts, any other index from
      the results. */
  function MeasurementAt(st: CacheState, index: int): Result<Message>
  {
    if index >= |st.results| then PyIndex(st.receipts, index - |st.results|)
    else PyIndex(st.results, index)
  }

  /** measurement_at as written, without `self`: the bound call
      client.measurement_at(i) passes the client as `index` and i as a
      second argument the def does not take, so Python raises TypeError
      before the body runs, whatever the index and the cache. */
  function MeasurementAtAsWritten(st: CacheState, index: int): Result<Message>
  {
    Err(ExtraArgument)
  }

  /** handle_message: route a message to its cache, open an envelope and
      handle its messages in order, report an unknown kind. The state at
      an error keeps what was handled before it. */
  function Handle(st: CacheState, msg: Message): (r: (CacheState, Option<Error>))
    requires ValidCache(st)
    ensures ValidCache(r.0)
    decreases msg, 1
  {
    match msg
    case Capability(_, _) => (AddCapabilityTo(st, msg), None)
    case Receipt(_, _) => AddReceiptValid(st, msg); (AddReceiptTo(st, msg), None)
    case ResultMsg(_, _) => AddResultValid(st, msg); (AddResultTo(st, msg), None)
    case Exception(_, _) => (st, None)
    case Envelope(contents) => HandleAll(st, contents)
    case Other(_) => (st, Some(UnknownMessage))
  }

  /** The messages of ms handled in order, stopping at the first error. */
  function HandleAll(st: CacheState, ms: seq<Message>): (r: (CacheState, Option<Error>))
    requires ValidCache(st)
    ensures ValidCache(r.0)
    decreases ms, 0
  {
    if ms == [] then (st, None)
    else
      var before := HandleAll(st, ms[..|ms| - 1]);
      if before.1.Some? then before else Handle(before.0, ms[|ms| - 1])
  }

  // ---------------------------------------------------------------------
  // Properties of the cache operations

  /** add_capability appends the capability, and a non-empty label now
      finds it, replacing an earlier capability with that label; other
      labels are untouched. */
  lemma AddCapabilityIndex(st: CacheState, cap: Message)
    requires cap.Capability?
    ensures var st' := AddCapabilityTo(st, cap);
      && st'.capabilities == st.capabilities + [cap]
      && (cap.name != "" ==> cap.name in st'.caplabels && st'.caplabels[cap.name] == cap)
      && (forall l :: l != cap.name ==> (l in st'.caplabels <==> l in st.caplabels))
      && (forall l :: l in st.caplabels && l != cap.name ==> st'.caplabels[l] == st.caplabels[l])
      && (cap.name == "" ==> st'.caplabels == st.caplabels)
      && st'.receipts == st.receipts && st'.results == st.results
      && (ValidCache(st) ==> ValidCache(st'))
  {
  }

  /** The token list of a receipt list with one more. */
  lemma {:induction false} TokensAppend(ms: seq<Message>, m: Message)
    requires forall i :: 0 <= i < |ms| ==> ms[i].Receipt? || ms[i].ResultMsg?
    requires m.Receipt? || m.ResultMsg?
    ensures Tokens(ms + [m]) == Tokens(ms) + [m.token]
  {
    var ts := Tokens(ms + [m]);
    assert |ts| == |Tokens(ms) + [m.token]|;
    forall i | 0 <= i < |ts|
      ensures ts[i] == (Tokens(ms) + [m.token])[i]
    {
    }
  }

  /** A token is among the tokens exactly when some message carries it. */
  lemma TokenIn(ms: seq<Message>, t: string)
    requires forall i :: 0 <= i < |ms| ==> ms[i].Receipt? || ms[i].ResultMsg?
    ensures t in Tokens(ms) <==> exists i :: 0 <= i < |ms| && ms[i].token == t
  {
    var ts := Tokens(ms);
    if t in ts {
      var i :| 0 <= i < |ts| && ts[i] == t;
      assert ms[i].token == t;
    }
  }

  /** add_receipt keeps the receipt tokens distinct and leaves the new
      token cached; it appends exactly when the token was not cached. */
  lemma AddReceiptValid(st: CacheState, r: Message)
    requires ValidCache(st) && r.Receipt?
    ensures var st' := AddReceiptTo(st, r);
      && ValidCache(st')
      && r.token in Tokens(st'.receipts)
      && (r.token !in Tokens(st.receipts) <==> st'.receipts == st.receipts + [r])
      && st'.capabilities == st.capabilities && st'.caplabels == st.caplabels
      && st'.results == st.results
  {
    TokenIn(st.receipts, r.token);
    if r.token !in Tokens(st.receipts) {
      TokensAppend(st.receipts, r);
      assert |st.receipts + [r]| != |st.receipts|;
    }
  }

  /** _delete_receipt_for keeps exactly the receipts with another token. */
  lemma {:induction false} WithoutMembers(rs: seq<Message>, token: string)
    requires AllReceipts(rs)
    ensures forall m :: m in Without(rs, token) <==> m in rs && m.token != token
  {
    if rs != [] {
      WithoutMembers(rs[1..], token);
      assert forall m :: m in rs <==> m == rs[0] || m in rs[1..];
    }
  }

  /** _delete_receipt_for keeps the order: filtering a concatenation
      filters each part. */
  lemma {:induction false} WithoutConcat(a: seq<Message>, b: seq<Message>, token: string)
    requires AllReceipts(a) && AllReceipts(b)
    ensures AllReceipts(a + b)
    ensures Without(a + b, token) == Without(a, token) + Without(b, token)
  {
    var ab := a + b;
    assert AllReceipts(ab) by {
      forall i | 0 <= i < |ab|
        ensures ab[i].Receipt?
      {
        if i < |a| {
          assert ab[i] == a[i];
        } else {
          assert ab[i] == b[i - |a|];
        }
      }
    }
    if a == [] {
      assert ab == b;
    } else {
      assert ab[0] == a[0] && ab[1..] == a[1..] + b;
      WithoutConcat(a[1..], b, token);
      var h := if a[0].token == token then [] else [a[0]];
      assert Without(ab, token) == h + Without(a[1..] + b, token);
      assert Without(a, token) == h + Without(a[1..], token);
    }
  }

  /** Nothing to delete leaves the receipts as they are. */
  lemma {:induction false} WithoutAbsent(rs: seq<Message>, token: string)
    requires AllReceipts(rs) && token !in Tokens(rs)
    ensures Without(rs, token) == rs
  {
    if rs != [] {
      assert Tokens(rs) == [rs[0].token] + Tokens(rs[1..]);
      WithoutAbsent(rs[1..], token);
    }
  }

  /** Filtering keeps tokens distinct. */
  lemma {:induction false} WithoutDistinct(rs: seq<Message>, token: string)
    requires AllReceipts(rs) && DistinctTokens(rs)
    ensures DistinctTokens(Without(rs, token))
  {
    if rs != [] {
      WithoutDistinct(rs[1..], token);
      WithoutMembers(rs[1..], token);
      var w := Without(rs, token);
      var tail := Without(rs[1..], token);
      if rs[0].token != token {
        assert w == [rs[0]] + tail;
        forall j | 0 < j < |w|
          ensures w[0].token != w[j].token
        {
          assert w[j] in tail;
          var k :| 0 <= k < |rs[1..]| && rs[1..][k] == w[j];
          assert rs[k + 1] == w[j];
        }
      } else {
        assert w == tail;
      }
    }
  }

  /** add_result with a new token appends it and leaves no receipt with
      that token; with a known token it changes nothing. It keeps the
      cache valid. */
  lemma AddResultValid(st: CacheState, r: Message)
    requires ValidCache(st) && r.ResultMsg?
    ensures var st' := AddResultTo(st, r);
      && ValidCache(st')
      && (r.token in Tokens(st.results) ==> st' == st)
      && (r.token !in Tokens(st.results) ==>
            && st'.results == st.results + [r]
            && st'.receipts == Without(st.receipts, r.token)
            && r.token !in Tokens(st'.receipts))
      && st'.capabilities == st.capabilities && st'.caplabels == st.caplabels
  {
    TokenIn(st.results, r.token);
    if r.token !in Tokens(st.results) {
      var rs := Without(st.receipts, r.token);
      WithoutMembers(st.receipts, r.token);
      WithoutDistinct(st.receipts, r.token);
      forall i | 0 <= i < |rs|
        ensures rs[i].token != r.token
      {
        assert rs[i] in rs;
      }
      TokenIn(rs, r.token);
    }
  }

  /** clear_capabilities empties both the list and the index, and keeps
      the measurements. */
  lemma ClearedEmpty(st: CacheState)
    requires ValidCache(st)
    ensures var st' := Cleared(st);
      && st'.capabilities == [] && st'.caplabels == map[]
      && Measurements(st') == Measurements(st) && ValidCache(st')
  {
  }

  /** measurement_at(i) is element i of measurements() for every index
      that is not negative; both fail past the end. */
  lemma MeasurementAtIsElement(st: CacheState, i: int)
    requires 0 <= i
    ensures MeasurementAt(st, i) == PyIndex(Measurements(st), i)
  {
    var ms := Measurements(st);
    if i < |st.results| {
      assert ms[i] == st.results[i];
    } else if i < |ms| {
      assert ms[i] == st.receipts[i - |st.results|];
    }
  }

  /** The call as written fails for every index, even one at which the
      receiver-taking measurement_at returns element i of measurements(). */
  lemma MeasurementAtUncallable(st: CacheState, i: int)
    requires 0 <= i < |Measurements(st)|
    ensures MeasurementAtAsWritten(st, i) == Err(ExtraArgument)
    ensures MeasurementAt(st, i) == Ok(Measurements(st)[i])
  {
    MeasurementAtIsElement(st, i);
  }

  // ---------------------------------------------------------------------
  // Properties of the dispatch

  /** Handling ms then more is handling ms, then, if no error stopped it,
      handling more from where it left off. */
  lemma {:induction false} HandleAllConcat(st: CacheState, ms: seq<Message>, more: seq<Message>)
    requires ValidCache(st)
    ensures var a := HandleAll(st, ms);
      HandleAll(st, ms + more) == if a.1.Some? then a else HandleAll(a.0, more)
    decreases |more|
  {
    if more == [] {
      assert ms + more == ms;
    } else {
      var init := more[..|more| - 1];
      HandleAllConcat(st, ms, init);
      assert (ms + more)[..|ms + more| - 1] == ms + init;
      assert (ms + more)[|ms + more| - 1] == more[|more| - 1];
    }
  }

  /** An envelope inside an envelope is handled as if its messages stood
      in the outer envelope in its place. */
  lemma NestedEnvelope(st: CacheState, before: seq<Message>, inner: seq<Message>, after: seq<Message>)
    requires ValidCache(st)
    ensures Handle(st, Envelope(before + [Envelope(inner)] + after))
         == Handle(st, Envelope(before + inner + after))
  {
    HandleAllConcat(st, before + [Envelope(inner)], after);
    HandleAllConcat(st, before, [Envelope(inner)]);
    HandleAllConcat(st, before + inner, after);
    HandleAllConcat(st, before, inner);
    var b := HandleAll(st, before);
    if b.1.None? {
      assert HandleAll(b.0, [Envelope(inner)]) == Handle(b.0, Envelope(inner)) by {
        assert [Envelope(inner)][..0] == [];
      }
    }
  }

  /** The messages of an envelope are handled in order: a message that is
      not understood stops the envelope with ValueError, keeping the
      effect of the messages before it and ignoring those after it. */
  lemma UnknownStops(st: CacheState, before: seq<Message>, kind: string, after: seq<Message>)
    requires ValidCache(st) && HandleAll(st, before).1.None?
    ensures Handle(st, Envelope(before + [Other(kind)] + after))
         == (HandleAll(st, before).0, Some(UnknownMessage))
  {
    HandleAllConcat(st, before + [Other(kind)], after);
    HandleAllConcat(st, before, [Other(kind)]);
    assert [Other(kind)][..0] == [];
  }

  /** A result handled after the receipt for it leaves no pending receipt
      with that token, and it is the last cached result. */
  lemma ReceiptThenResult(st: CacheState, token: string, rid: nat, sid: nat)
    requires ValidCache(st) && token !in Tokens(st.results)
    ensures var r := Handle(st, Envelope([Receipt(token, rid), ResultMsg(token, sid)]));
      && r.1.None?
      && token !in Tokens(r.0.receipts)
      && r.0.results == st.results + [ResultMsg(token, sid)]
  {
    var ms := [Receipt(token, rid), ResultMsg(token, sid)];
    assert ms[..1] == [Receipt(token, rid)] && ms[..1][..0] == [];
    var s1 := AddReceiptTo(st, Receipt(token, rid));
    AddReceiptValid(st, Receipt(token, rid));
    assert HandleAll(st, ms[..1]) == (s1, None);
    assert HandleAll(st, ms) == Handle(s1, ms[1]);
    AddResultValid(s1, ResultMsg(token, sid));
  }

  // ---------------------------------------------------------------------
  // The client object

  class HttpClient {
    var posturl: string
    var capurl: string
    var capabilities: seq<Message>
    var caplabels: map<string, Message>
    var receipts: seq<Message>
    var results: seq<Message>

    function Cache(): CacheState
      reads this
    {
      CacheState(capabilities, caplabels, receipts, results)
    }

    predicate Valid()
      reads this
    {
      ValidCache(Cache()) && |capurl| > 0 && capurl[0] == '/'
    }

    /** __init__, without the connection pool: the capability path is
        normalised and the caches start empty. */
    constructor(post: string, cap: Option<string>)
      requires cap != Some("")
      ensures Valid()
      ensures posturl == post && capurl == CapPath(cap).value && Cache() == Empty()
    {
      posturl := post;
      var path := "/" + CapabilityPathElem;
      if cap.Some? {
        if cap.value[0] != '/' {
          path := "/" + cap.value;
        } else {
          path := cap.value;
        }
      }
      capurl := path;
      capabilities := [];
      caplabels := map[];
      receipts := [];
      results := [];
    }

    method AddCapability(cap: Message)
      requires Valid() && cap.Capability?
      modifies this
      ensures Valid() && capurl == old(capurl) && posturl == old(posturl)
      ensures Cache() == AddCapabilityTo(old(Cache()), cap)
    {
      AddCapabilityIndex(Cache(), cap);
      capabilities := capabilities + [cap];
      if cap.name != "" {
        caplabels := caplabels[cap.name := cap];
      }
    }

    method ClearCapabilities()
      requires Valid()
      modifies this
      ensures Valid() && capurl == old(capurl) && posturl == old(posturl)
      ensures Cache() == Cleared(old(Cache()))
    {
      capabilities := [];
      caplabels := map[];
    }

    /** capability_at(index). */
    method CapabilityAt(index: int) returns (r: Result<Message>)
      ensures r == PyIndex(capabilities, index)
    {
      if 0 <= index < |capabilities| {
        r := Ok(capabilities[index]);
      } else if -|capabilities| <= index < 0 {
        r := Ok(capabilities[|capabilities| + index]);
      } else {
        r := Err(IndexOutOfRange);
      }
    }

    /** capability_by_label(label): the capability last added under that
        label, or KeyError. */
    method CapabilityByLabel(key: string) returns (r: Result<Message>)
      requires Valid()
      ensures r.Ok? <==> key in caplabels
      ensures r.Err? ==> r.error == UnknownLabel
      ensures r.Ok? ==> r.value == caplabels[key] && r.value in capabilities
                        && r.value.Capability? && r.value.name == key
    {
      if key in caplabels {
        r := Ok(caplabels[key]);
      } else {
        r := Err(UnknownLabel);
      }
    }

    /** add_receipt: scan the cached tokens, append when the token is new. */
    method AddReceipt(msg: Message)
      requires Valid() && msg.Receipt?
      modifies this
      ensures Valid() && capurl == old(capurl) && posturl == old(posturl)
      ensures Cache() == AddReceiptTo(old(Cache()), msg)
    {
      AddReceiptValid(Cache(), msg);
      var known := HasToken(receipts, msg.token);
      if !known {
        receipts := receipts + [msg];
      }
    }

    /** The membership test `token in [m.get_token() for m in ms]`. */
    static method HasToken(ms: seq<Message>, token: string) returns (known: bool)
      requires forall i :: 0 <= i < |ms| ==> ms[i].Receipt? || ms[i].ResultMsg?
      ensures known <==> token in Tokens(ms)
    {
      known := false;
      var i := 0;
      while i < |ms|
        invariant 0 <= i <= |ms|
        invariant known <==> token in Tokens(ms)[..i]
      {
        assert Tokens(ms)[..i + 1] == Tokens(ms)[..i] + [ms[i].token];
        known := known || ms[i].token == token;
        i := i + 1;
      }
      assert Tokens(ms)[..i] == Tokens(ms);
    }

    /** _delete_receipt_for(token): rebuild the list without that token. */
    method DeleteReceiptFor(token: string)
      requires Valid()
      modifies this
      ensures Valid() && capurl == old(capurl) && posturl == old(posturl)
      ensures Cache() == old(Cache()).(receipts := Without(old(receipts), token))
    {
      WithoutDistinct(receipts, token);
      receipts := KeepOthers(receipts, token);
    }

    /** The list comprehension of _delete_receipt_for: the receipts whose
        token differs, in their order. */
    static method KeepOthers(rs: seq<Message>, token: string) returns (kept: seq<Message>)
      requires AllReceipts(rs)
      ensures kept == Without(rs, token)
    {
      kept := [];
      var i := 0;
      while i < |rs|
        invariant 0 <= i <= |rs| && AllReceipts(rs[..i])
        invariant kept == Without(rs[..i], token)
      {
        assert rs[..i + 1] == rs[..i] + [rs[i]];
        WithoutConcat(rs[..i], [rs[i]], token);
        if rs[i].token != token {
          kept := kept + [rs[i]];
        }
        i := i + 1;
      }
      assert rs[..i] == rs;
    }

    /** add_result: a result with a new token is cached and its receipts
        dropped. */
    method AddResult(msg: Message)
      requires Valid() && msg.ResultMsg?
      modifies this
      ensures Valid() && capurl == old(capurl) && posturl == old(posturl)
      ensures Cache() == AddResultTo(old(Cache()), msg)
    {
      AddResultValid(Cache(), msg);
      var known := HasToken(results, msg.token);
      if !known {
        results := results + [msg];
        DeleteReceiptFor(msg.token);
      }
    }

    /** measurement_at(index). */
    method MeasurementAtIndex(index: int) returns (r: Result<Message>)
      ensures r == MeasurementAt(Cache(), index)
    {
      if index >= |results| {
        var j := index - |results|;
        if 0 <= j < |receipts| {
          r := Ok(receipts[j]);
        } else {
          r := Err(IndexOutOfRange);
        }
      } else if 0 <= index {
        r := Ok(results[index]);
      } else if -|results| <= index {
        r := Ok(results[|results| + index]);
      } else {
        r := Err(IndexOutOfRange);
      }
    }

    /** handle_message(msg): dispatch by kind; the messages of an envelope
        one after the other; ValueError for any other kind. */
    method HandleMessage(msg: Message) returns (err: Option<Error>)
      requires Valid()
      modifies this
      ensures Valid() && capurl == old(capurl) && posturl == old(posturl)
      ensures (Cache(), err) == Handle(old(Cache()), msg)
      decreases msg
    {
      match msg {
        case Capability(_, _) =>
          AddCapability(msg);
          err := None;
        case Receipt(_, _) =>
          AddReceipt(msg);
          err := None;
        case ResultMsg(_, _) =>
          AddResult(msg);
          err := None;
        case Exception(_, _) =>
          err := None;
        case Envelope(contents) =>
          ghost var st := Cache();
          var i := 0;
          err := None;
          while i < |contents| && err.None?
            invariant 0 <= i <= |contents|
            invariant Valid() && capurl == old(capurl) && posturl == old(posturl)
            invariant (Cache(), err) == HandleAll(st, contents[..i])
          {
            assert contents[..i + 1][..i] == contents[..i];
            err := HandleMessage(contents[i]);
            i := i + 1;
          }
          HandleAllConcat(st, contents[..i], contents[i..]);
          assert contents[..i] + contents[i..] == contents;
        case Other(_) =>
          err := Some(UnknownMessage);
      }
    }
  }
}
