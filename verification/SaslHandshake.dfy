/**
 The SASL Kerberos provider over a scripted GSSAPI client (the initiator loop of section 2.2.1
 of RFC 2743): the client replays a transcript row by row, the provider turns connection
 events into client steps. The properties hold for every transcript and every sequence of calls.
 */
module SaslHandshake {
  import opened Sequences
  import opened Wrappers

  type Bytes = seq<char>

  /** One scripted exchange; without an expectation any challenge matches. */
  datatype Row = Row(expected: Option<Bytes>, reply: Bytes, continueNeeded: bool)

  datatype Error = AlreadyComplete | Exhausted | Mismatch

  const U32 := 0x1_0000_0000

  predicate Matches(row: Row, challenge: Bytes) {
    row.expected.None? || row.expected.value == challenge
  }

  // ----- The client -----

  /** The client's fields: the rows not yet replayed, and the two counters behind locks. */
  datatype Client = Client(left: seq<Row>, complete: bool, steps: nat)

  function New(rows: seq<Row>): Client {
    Client(rows, false, 0)
  }

  function ClientAfter(c: Client, challenge: Bytes): Client {
    if c.complete || c.left == [] then c
    else if !Matches(c.left[0], challenge) then c.(left := c.left[1..])
    else Client(c.left[1..], !c.left[0].continueNeeded, (c.steps + 1) % U32)
  }

  function StepResult(c: Client, challenge: Bytes): Result<Bytes, Error> {
    if c.complete then Err(AlreadyComplete)
    else if c.left == [] then Err(Exhausted)
    else if !Matches(c.left[0], challenge) then Err(Mismatch)
    else Ok(c.left[0].reply)
  }

  class ScriptedGssapiClient {
    var transcript: seq<Row>
    var complete: bool
    var steps: nat

    constructor (rows: seq<Row>)
      ensures View() == New(rows)
    {
      transcript, complete, steps := rows, false, 0;
    }

    function View(): Client
      reads this
    {
      Client(transcript, complete, steps)
    }

    method Step(challenge: Bytes) returns (r: Result<Bytes, Error>)
      modifies this
      ensures View() == ClientAfter(old(View()), challenge)
      ensures r == StepResult(old(View()), challenge)
    {
      if complete { return Err(AlreadyComplete); }
      if transcript == [] { return Err(Exhausted); }
      var next := transcript[0];
      transcript := transcript[1..];
      if next.expected.Some? && next.expected.value != challenge { return Err(Mismatch); }
      steps := (steps + 1) % U32;
      if !next.continueNeeded { complete := true; }
      return Ok(next.reply);
    }
  }

  // ----- The provider -----

  /** The calls a connection makes. */
  datatype Call = Initial | Respond(challenge: Bytes)

  /** A call either steps the client or answers an empty challenge after completion by itself. */
  predicate Steps(c: Client, call: Call) {
    !(call.Respond? && call.challenge == [] && c.complete)
  }

  function Challenge(call: Call): Bytes {
    if call.Initial? then [] else call.challenge
  }

  function After(c: Client, call: Call): Client {
    if Steps(c, call) then ClientAfter(c, Challenge(call)) else c
  }

  function Answer(c: Client, call: Call): Result<Bytes, Error> {
    if Steps(c, call) then StepResult(c, Challenge(call)) else Ok([])
  }

  class SaslKerberos {
    const client: ScriptedGssapiClient

    constructor (client: ScriptedGssapiClient)
      ensures this.client == client
    {
      this.client := client;
    }

    method InitialToken() returns (r: Result<Bytes, Error>)
      modifies client
      ensures client.View() == After(old(client.View()), Initial)
      ensures r == Answer(old(client.View()), Initial)
    {
      r := client.Step([]);
    }

    method RespondToChallenge(challenge: Bytes) returns (r: Result<Bytes, Error>)
      modifies client
      ensures client.View() == After(old(client.View()), Respond(challenge))
      ensures r == Answer(old(client.View()), Respond(challenge))
    {
      if client.complete && challenge == [] { return Ok([]); }
      r := client.Step(challenge);
    }
  }

  // ----- Runs -----

  function Run(c: Client, calls: seq<Call>): Client {
    if calls == [] then c else After(Run(c, calls[..|calls| - 1]), calls[|calls| - 1])
  }

  /** The replies of the successful steps of a run. */
  function Replies(c: Client, calls: seq<Call>): seq<Bytes> {
    if calls == [] then []
    else
      var before, call := Run(c, calls[..|calls| - 1]), calls[|calls| - 1];
      Replies(c, calls[..|calls| - 1])
      + (if StepResult(before, Challenge(call)).Ok? then [StepResult(before, Challenge(call)).value] else [])
  }

  /** The challenges that met a row, one for each row replayed. */
  function Fed(c: Client, calls: seq<Call>): seq<Bytes> {
    if calls == [] then []
    else
      var before, call := Run(c, calls[..|calls| - 1]), calls[|calls| - 1];
      Fed(c, calls[..|calls| - 1])
      + (if !before.complete && before.left != [] then [Challenge(call)] else [])
  }

  /** Row `k` of the transcript expected nothing in particular, or what it was fed. */
  predicate Met(rows: seq<Row>, fed: seq<Bytes>, k: nat)
    requires k < |fed| <= |rows|
  {
    rows[k].expected == None || rows[k].expected == Some(fed[k])
  }

  /** The replies of the rows that matched what they were fed, in transcript order. */
  function Accepted(rows: seq<Row>, fed: seq<Bytes>): seq<Bytes>
    requires |fed| <= |rows|
  {
    if fed == [] then []
    else
      var k := |fed| - 1;
      Accepted(rows, fed[..k]) + (if Met(rows, fed, k) then [rows[k].reply] else [])
  }

  function Mismatches(rows: seq<Row>, fed: seq<Bytes>): nat
    requires |fed| <= |rows|
  {
    if fed == [] then 0
    else Mismatches(rows, fed[..|fed| - 1]) + (if Met(rows, fed, |fed| - 1) then 0 else 1)
  }

  /** Row `k` ends the handshake. */
  predicate Ends(rows: seq<Row>, fed: seq<Bytes>, k: nat)
    requires k < |fed| <= |rows|
  {
    Met(rows, fed, k) && !rows[k].continueNeeded
  }

  /** What a run of calls on the transcript `rows` amounts to. */
  predicate Replayed(rows: seq<Row>, fed: seq<Bytes>, replies: seq<Bytes>, c: Client) {
    && |fed| <= |rows|
    && c.left == rows[|fed|..]
    && replies == Accepted(rows, fed)
    && |fed| == |replies| + Mismatches(rows, fed)
    && c.steps == |replies| % U32
    && (c.complete <==> fed != [] && Ends(rows, fed, |fed| - 1))
    && NoEarlyEnd(rows, fed)
  }

  lemma FedOneMore(rows: seq<Row>, fed: seq<Bytes>, challenge: Bytes)
    requires |fed| < |rows|
    ensures var row := rows[|fed|];
            && Accepted(rows, fed + [challenge]) == Accepted(rows, fed) + (if Matches(row, challenge) then [row.reply] else [])
            && Mismatches(rows, fed + [challenge]) == Mismatches(rows, fed) + (if Matches(row, challenge) then 0 else 1)
  {
    assert (fed + [challenge])[..|fed|] == fed;
  }

  lemma EndsBefore(rows: seq<Row>, fed: seq<Bytes>, challenge: Bytes, k: nat)
    requires k < |fed| < |rows|
    ensures Ends(rows, fed + [challenge], k) <==> Ends(rows, fed, k)
  {
  }

  /** No row but the last ends the handshake. */
  predicate NoEarlyEnd(rows: seq<Row>, fed: seq<Bytes>)
    requires |fed| <= |rows|
  {
    forall k :: 0 <= k < |fed| - 1 ==> !Ends(rows, fed, k)
  }

  lemma StillNoEarlyEnd(rows: seq<Row>, fed: seq<Bytes>, challenge: Bytes)
    requires |fed| < |rows| && NoEarlyEnd(rows, fed) && (fed != [] ==> !Ends(rows, fed, |fed| - 1))
    ensures NoEarlyEnd(rows, fed + [challenge])
  {
    forall k: nat | k < |fed| ensures !Ends(rows, fed + [challenge], k) { EndsBefore(rows, fed, challenge, k); }
  }

  lemma CountWraps(n: nat)
    ensures (n % U32 + 1) % U32 == (n + 1) % U32
  {
  }

  /** The client after it has met the next row. */
  lemma MeetRow(rows: seq<Row>, n: nat, c: Client, challenge: Bytes)
    requires n < |rows| && c.left == rows[n..] && !c.complete
    ensures var next := ClientAfter(c, challenge);
            && c.left[0] == rows[n] && next.left == rows[n + 1..]
            && (next.complete <==> Matches(rows[n], challenge) && !rows[n].continueNeeded)
            && next.steps == if Matches(rows[n], challenge) then (c.steps + 1) % U32 else c.steps
  {
    assert c.left[1..] == rows[n + 1..];
  }

  lemma ReplayStep(rows: seq<Row>, fed: seq<Bytes>, replies: seq<Bytes>, c: Client, challenge: Bytes)
    requires Replayed(rows, fed, replies, c) && !c.complete && c.left != []
    ensures Replayed(rows, fed + [challenge],
                     replies + (if Matches(c.left[0], challenge) then [c.left[0].reply] else []),
                     ClientAfter(c, challenge))
  {
    MeetRow(rows, |fed|, c, challenge);
    CountWraps(|replies|);
    FedOneMore(rows, fed, challenge);
    StillNoEarlyEnd(rows, fed, challenge);
  }

  /**
   For every transcript and every sequence of calls: the replies handed out are those of the
   matching rows in transcript order, every replayed row is one successful step or one mismatch,
   the step counter counts the successes, and the handshake is complete exactly when the last
   replayed row ended it, which no earlier row did.
   */
  lemma {:induction false} TranscriptIsReplayed(rows: seq<Row>, calls: seq<Call>)
    ensures Replayed(rows, Fed(New(rows), calls), Replies(New(rows), calls), Run(New(rows), calls))
  {
    var c := New(rows);
    if calls != [] {
      var k := |calls| - 1;
      TranscriptIsReplayed(rows, calls[..k]);
      var before, call := Run(c, calls[..k]), calls[k];
      if !before.complete && before.left != [] {
        ReplayStep(rows, Fed(c, calls[..k]), Replies(c, calls[..k]), before, Challenge(call));
      } else {
        assert Replies(c, calls) == Replies(c, calls[..k]) && Fed(c, calls) == Fed(c, calls[..k]);
      }
    } else {
      assert rows[0..] == rows;
    }
  }

  /** The rows at the places `at`, in order, are those whose replies these are. */
  predicate Chosen(rows: seq<Row>, n: nat, replies: seq<Bytes>, at: seq<nat>)
    requires n <= |rows|
  {
    && |at| == |replies| && Ascending(at)
    && (forall j :: 0 <= j < |at| ==> at[j] < n && replies[j] == rows[at[j]].reply)
  }

  lemma ChooseNext(rows: seq<Row>, n: nat, replies: seq<Bytes>, at: seq<nat>)
    requires n < |rows| && Chosen(rows, n, replies, at)
    ensures Chosen(rows, n + 1, replies, at) && Chosen(rows, n + 1, replies + [rows[n].reply], at + [n])
  {
  }

  /** A strictly increasing choice of transcript rows gives the replies. */
  lemma {:induction false} RepliesAreInOrder(rows: seq<Row>, fed: seq<Bytes>) returns (at: seq<nat>)
    requires |fed| <= |rows|
    ensures |at| == |Accepted(rows, fed)| && Ascending(at)
    ensures forall j :: 0 <= j < |at| ==> at[j] < |fed| && Accepted(rows, fed)[j] == rows[at[j]].reply
  {
    at := ChooseRows(rows, fed);
  }

  lemma {:induction false} ChooseRows(rows: seq<Row>, fed: seq<Bytes>) returns (at: seq<nat>)
    requires |fed| <= |rows|
    ensures Chosen(rows, |fed|, Accepted(rows, fed), at)
  {
    if fed == [] {
      at := [];
    } else {
      var k := |fed| - 1;
      at := ChooseRows(rows, fed[..k]);
      ChooseNext(rows, k, Accepted(rows, fed[..k]), at);
      if Met(rows, fed, k) { at := at + [k]; }
      assert Accepted(rows, fed[..k]) + [] == Accepted(rows, fed[..k]);
    }
  }

  // ----- A handshake that goes as scripted -----

  /** A broker that sends the challenges of the script, whose last row alone ends the handshake. */
  predicate AsScripted(rows: seq<Row>, challenges: seq<Bytes>) {
    && rows != [] && |challenges| == |rows| - 1
    && (rows[0].expected.Some? ==> rows[0].expected.value == [])
    && (forall k :: 1 <= k < |rows| && rows[k].expected.Some? ==> rows[k].expected.value == challenges[k - 1])
    && (forall k :: 0 <= k < |rows| ==> (rows[k].continueNeeded <==> k < |rows| - 1))
  }

  /** The initial token, and then one response for each challenge. */
  function CallsFor(challenges: seq<Bytes>): seq<Call> {
    seq(|challenges| + 1, k requires 0 <= k <= |challenges| => if k == 0 then Initial else Respond(challenges[k - 1]))
  }

  function AllReplies(rows: seq<Row>): seq<Bytes> {
    seq(|rows|, k requires 0 <= k < |rows| => rows[k].reply)
  }

  lemma ScriptedStep(rows: seq<Row>, challenges: seq<Bytes>, k: nat, c: Client)
    requires AsScripted(rows, challenges) && k < |rows| && c.left == rows[k..] && !c.complete
    ensures var call := CallsFor(challenges)[k];
            && After(c, call).left == rows[k + 1..] && (After(c, call).complete <==> k + 1 == |rows|)
            && StepResult(c, Challenge(call)) == Ok(rows[k].reply)
  {
    assert c.left[0] == rows[k] && c.left[1..] == rows[k + 1..];
  }

  lemma OneMoreCall(c: Client, calls: seq<Call>, k: nat)
    requires k < |calls|
    ensures Run(c, calls[..k + 1]) == After(Run(c, calls[..k]), calls[k])
    ensures var result := StepResult(Run(c, calls[..k]), Challenge(calls[k]));
            Replies(c, calls[..k + 1]) == Replies(c, calls[..k]) + if result.Ok? then [result.value] else []
  {
    assert calls[..k + 1][..k] == calls[..k];
  }

  lemma {:induction false} ScriptedRun(rows: seq<Row>, challenges: seq<Bytes>, calls: seq<Call>, k: nat)
    requires AsScripted(rows, challenges) && calls == CallsFor(challenges) && k <= |rows|
    ensures var c := Run(New(rows), calls[..k]); c.left == rows[k..] && (c.complete <==> k == |rows|)
  {
    if k == 0 {
      assert rows[0..] == rows;
    } else {
      ScriptedRun(rows, challenges, calls, k - 1);
      OneMoreCall(New(rows), calls, k - 1);
      ScriptedStep(rows, challenges, k - 1, Run(New(rows), calls[..k - 1]));
    }
  }

  lemma TakeOneMore(all: seq<Bytes>, k: nat)
    requires k < |all|
    ensures all[..k + 1] == all[..k] + [all[k]]
  {
  }

  lemma {:induction false} ScriptedReplies(rows: seq<Row>, challenges: seq<Bytes>, calls: seq<Call>, k: nat)
    requires AsScripted(rows, challenges) && calls == CallsFor(challenges) && k <= |rows|
    ensures Replies(New(rows), calls[..k]) == AllReplies(rows)[..k]
  {
    if k > 0 {
      ScriptedReplies(rows, challenges, calls, k - 1);
      ScriptedRun(rows, challenges, calls, k - 1);
      OneMoreCall(New(rows), calls, k - 1);
      ScriptedStep(rows, challenges, k - 1, Run(New(rows), calls[..k - 1]));
      TakeOneMore(AllReplies(rows), k - 1);
    }
  }

  /** Such a handshake hands out every reply of the script, in order, and is then complete. */
  lemma ScriptedHandshakeCompletes(rows: seq<Row>, challenges: seq<Bytes>)
    requires AsScripted(rows, challenges)
    ensures var c := Run(New(rows), CallsFor(challenges)); c.complete && c.left == []
    ensures Replies(New(rows), CallsFor(challenges)) == AllReplies(rows)
  {
    var calls := CallsFor(challenges);
    ScriptedRun(rows, challenges, calls, |rows|);
    ScriptedReplies(rows, challenges, calls, |rows|);
    assert calls[..|rows|] == calls && AllReplies(rows)[..|rows|] == AllReplies(rows);
  }

  // ----- After the end -----

  lemma {:induction false} RunConcat(c: Client, a: seq<Call>, b: seq<Call>)
    ensures Run(c, a + b) == Run(Run(c, a), b)
    decreases |b|
  {
    if b == [] {
      assert a + b == a;
    } else {
      RunConcat(c, a, b[..|b| - 1]);
      assert (a + b)[..|a + b| - 1] == a + b[..|b| - 1];
    }
  }

  lemma {:induction false} CompleteIsPermanent(c: Client, calls: seq<Call>)
    requires c.complete
    ensures Run(c, calls) == c
  {
    if calls != [] { CompleteIsPermanent(c, calls[..|calls| - 1]); }
  }

  /**
   Once complete, no sequence of calls changes the client; an empty challenge is answered with
   nothing, and every other call is refused as already complete.
   */
  lemma AfterCompletion(rows: seq<Row>, calls: seq<Call>, more: seq<Call>, call: Call)
    requires Run(New(rows), calls).complete
    ensures Run(New(rows), calls + more) == Run(New(rows), calls)
    ensures Answer(Run(New(rows), calls + more), call)
         == if call == Respond([]) then Ok([]) else Err(AlreadyComplete)
  {
    RunConcat(New(rows), calls, more);
    CompleteIsPermanent(Run(New(rows), calls), more);
  }

  lemma {:induction false} DrainedStaysDrained(c: Client, calls: seq<Call>)
    requires !c.complete && c.left == []
    ensures Run(c, calls) == c
  {
    if calls != [] { DrainedStaysDrained(c, calls[..|calls| - 1]); }
  }

  /**
   A transcript that runs out before a row ends the handshake leaves the client incomplete for
   good: every further call, an empty challenge included, reports exhaustion.
   */
  lemma AfterExhaustion(rows: seq<Row>, calls: seq<Call>, more: seq<Call>, call: Call)
    requires !Run(New(rows), calls).complete && Run(New(rows), calls).left == []
    ensures !Run(New(rows), calls + more).complete
    ensures Answer(Run(New(rows), calls + more), call) == Err(Exhausted)
  {
    RunConcat(New(rows), calls, more);
    DrainedStaysDrained(Run(New(rows), calls), more);
  }

  /**
   When a drained client is complete: exactly when the last row of the transcript matched what it was
   fed and asked for no continuation.
   */
  lemma WhenDrainedIsComplete(rows: seq<Row>, calls: seq<Call>)
    requires rows != [] && Run(New(rows), calls).left == []
    ensures var fed := Fed(New(rows), calls);
            |fed| == |rows| && (Run(New(rows), calls).complete <==> Ends(rows, fed, |rows| - 1))
  {
    TranscriptIsReplayed(rows, calls);
  }

  /** A transcript of one row that asks to go on: drained by the first call, and not complete. */
  lemma DrainedIsNotComplete(reply: Bytes)
    ensures var c := Run(New([Row(None, reply, true)]), [Initial]);
            c.left == [] && !c.complete && Answer(c, Respond([])) == Err(Exhausted)
  {
    var rows := [Row(None, reply, true)];
    assert [Initial][..0] == [] && Run(New(rows), []) == New(rows);
    assert Run(New(rows), [Initial]) == After(New(rows), Initial);
  }
}
