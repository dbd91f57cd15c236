/**
 The control flow of pairing (libgamestream/client.c): which requests are sent, when the server counts
 as paired, and what every failure leaves behind. What the server replies and what the cryptographic
 library answers are inputs.
 */
module Pairing {
  const GS_OK := 0
  const GS_FAILED := -1
  const GS_OUT_OF_MEMORY := -2
  const GS_INVALID := -3
  const GS_WRONG_STATE := -4

  /** The five pairing requests, in the order of the protocol, and the one that takes a pairing back. */
  datatype Request =
    | GetServerCert | ClientChallenge | ServerChallengeResp | ClientPairingSecret | PairChallenge
    | Unpair

  const PROTOCOL := [GetServerCert, ClientChallenge, ServerChallengeResp, ClientPairingSecret, PairChallenge]

  /** The result of a query in a reply: an error code, or the text found. */
  datatype Found = Found(code: int, text: string)

  /** One exchange: the code of the request, its "paired" text, and the further text that is read from the reply. */
  datatype Reply = Reply(http: int, paired: Found, further: Found)

  /** Everything the call depends on. */
  datatype World = World(
    bufferOk: bool, cert: Reply, challenge: Reply, challengeResp: Reply, secret: Reply, final: Reply,
    signatureVerified: bool, signed: bool)

  class Server {
    var paired: bool
    var currentGame: int
    /** The requests sent to it. */
    var requests: seq<Request>

    constructor (paired: bool, currentGame: int)
      ensures this.paired == paired && this.currentGame == currentGame && requests == []
    {
      this.paired, this.currentGame, requests := paired, currentGame, [];
    }

    /** A request and the check of its "paired" text, with which every exchange begins. */
    method Exchange(request: Request, reply: Reply) returns (ret: int)
      modifies this`requests
      ensures requests == old(requests) + [request]
      ensures ret == Opening(reply)
    {
      requests := requests + [request];
      ret := reply.http;
      if ret != GS_OK { return; }
      ret := reply.paired.code;
      if ret != GS_OK { return; }
      if reply.paired.text != "1" {
        ret := GS_FAILED;
      }
    }

    /** The five exchanges, up to the first that fails. */
    method Negotiate(w: World) returns (ret: int)
      modifies this`requests
      ensures ret == Verdict(w)
      ensures requests == old(requests) + PROTOCOL[..Attempted(w)]
    {
      ret := Exchange(GetServerCert, w.cert);
      if ret != GS_OK { return; }
      ret := w.cert.further.code;
      if ret != GS_OK { return; }
      if |w.cert.further.text| / 2 > 8191 {
        ret := GS_FAILED;
        return;
      }

      ret := Exchange(ClientChallenge, w.challenge);
      if ret != GS_OK { return; }
      if w.challenge.further.code != GS_OK {
        ret := GS_INVALID;
        return;
      }

      ret := Exchange(ServerChallengeResp, w.challengeResp);
      if ret != GS_OK { return; }
      if w.challengeResp.further.code != GS_OK {
        ret := GS_INVALID;
        return;
      }
      if !w.signatureVerified {
        ret := GS_FAILED;
        return;
      }
      if !w.signed {
        ret := GS_FAILED;
        return;
      }

      ret := Exchange(ClientPairingSecret, w.secret);
      if ret != GS_OK { return; }

      ret := Exchange(PairChallenge, w.final);
    }

    method Pair(w: World) returns (ret: int)
      modifies this
      ensures currentGame == old(currentGame)
      ensures old(requests) <= requests
      ensures Pairs(old(paired), currentGame, w, ret, paired, requests[|old(requests)|..])
    {
      assert requests[|requests|..] == [];
      if paired {
        return GS_WRONG_STATE;
      }
      if currentGame != 0 {
        return GS_WRONG_STATE;
      }
      if !w.bufferOk {
        return GS_OUT_OF_MEMORY;
      }
      ret := Negotiate(w);
      assert requests[|old(requests)|..] == PROTOCOL[..Attempted(w)];
      if ret == GS_OK {
        paired := true;
        assert PROTOCOL[..5] == PROTOCOL;
      }
      if ret != GS_OK {
        requests := requests + [Unpair];
        assert requests[|old(requests)|..] == PROTOCOL[..Attempted(w)] + [Unpair];
      }
    }
  }

  // ---- the checks of each exchange ----

  /** Two checks in a row: the code of the first one that fails. */
  function Then(first: int, second: int): int {
    if first != GS_OK then first else second
  }

  function Code(passed: bool, failure: int): int {
    if passed then GS_OK else failure
  }

  function Opening(r: Reply): int {
    Then(r.http, Then(r.paired.code, Code(r.paired.text == "1", GS_FAILED)))
  }

  /** The code of an exchange. */
  function Exchanged(w: World, exchange: nat): int
    requires exchange < 5
  {
    match exchange
    case 0 => Then(Opening(w.cert), Then(w.cert.further.code, Code(|w.cert.further.text| / 2 <= 8191, GS_FAILED)))
    case 1 => Then(Opening(w.challenge), Code(w.challenge.further.code == GS_OK, GS_INVALID))
    case 2 =>
      Then(Opening(w.challengeResp),
           Then(Code(w.challengeResp.further.code == GS_OK, GS_INVALID),
                Then(Code(w.signatureVerified, GS_FAILED), Code(w.signed, GS_FAILED))))
    case 3 => Opening(w.secret)
    case 4 => Opening(w.final)
  }

  predicate Passes(w: World, exchange: nat)
    requires exchange < 5
  {
    Exchanged(w, exchange) == GS_OK
  }

  /** The number of exchanges begun: those that pass and the first that does not. */
  function Attempted(w: World): (n: nat)
    ensures 1 <= n <= 5
    ensures forall k :: 0 <= k < n - 1 ==> Passes(w, k)
    ensures n < 5 ==> !Passes(w, n - 1)
  {
    if !Passes(w, 0) then 1
    else if !Passes(w, 1) then 2
    else if !Passes(w, 2) then 3
    else if !Passes(w, 3) then 4
    else 5
  }

  /** The code of the last exchange begun. */
  function Verdict(w: World): int {
    Exchanged(w, Attempted(w) - 1)
  }

  // ---- what the call promises ----

  /** What one call does, as its contract has it. */
  ghost predicate Pairs(
    wasPaired: bool, game: int, w: World, ret: int, paired: bool, sent: seq<Request>)
  {
    (ret, paired, sent) ==
      if wasPaired || game != 0 then (GS_WRONG_STATE, wasPaired, [])
      else if !w.bufferOk then (GS_OUT_OF_MEMORY, false, [])
      else if Verdict(w) == GS_OK then (GS_OK, true, PROTOCOL)
      else (Verdict(w), false, PROTOCOL[..Attempted(w)] + [Unpair])
  }

  function PairRequests(sent: seq<Request>): seq<Request> {
    if sent != [] && sent[|sent| - 1] == Unpair then sent[..|sent| - 1] else sent
  }

  /**
   For every behaviour of the server and of the cryptographic library: the pairing requests are a
   prefix of the protocol; the server becomes paired exactly when the call succeeds, which takes all
   five exchanges, a verified signature and a signature of our own; a failure after the first request
   is followed by exactly one unpair; and a call in the wrong state sends nothing.
   */
  lemma PairingIsSafe(wasPaired: bool, game: int, w: World, ret: int, paired: bool, sent: seq<Request>)
    requires Pairs(wasPaired, game, w, ret, paired, sent)
    ensures PairRequests(sent)
      <= [GetServerCert, ClientChallenge, ServerChallengeResp, ClientPairingSecret, PairChallenge]
    ensures paired != wasPaired <==> ret == GS_OK
    ensures ret == GS_OK <==> !wasPaired && game == 0 && w.bufferOk && forall k :: 0 <= k < 5 ==> Passes(w, k)
    ensures ret == GS_OK ==> sent == PROTOCOL && w.signatureVerified && w.signed
    ensures ret == GS_OK ==> forall r :: r in [w.cert, w.challenge, w.challengeResp, w.secret, w.final] ==>
      r.http == GS_OK && r.paired == Found(GS_OK, "1")
    ensures ret != GS_OK && sent != [] ==> sent[|sent| - 1] == Unpair && Unpair !in sent[..|sent| - 1]
    ensures ret == GS_OK ==> Unpair !in sent
    ensures sent != [] ==> forall k :: 0 <= k < |PairRequests(sent)| - 1 ==> Passes(w, k)
    ensures wasPaired || game != 0 ==> sent == [] && ret == GS_WRONG_STATE
  {
    if !wasPaired && game == 0 && w.bufferOk {
      var n := Attempted(w);
      assert Verdict(w) == GS_OK <==> Passes(w, n - 1);
      if Verdict(w) == GS_OK {
        assert n == 5;
        assert Passes(w, 0) && Passes(w, 1) && Passes(w, 2) && Passes(w, 3) && Passes(w, 4);
      }
    }
  }

  // ---- which code a failure returns ----

  /** Every check of the call after its request buffer, in order: 0, or the code that it fails with. */
  function Checks(w: World): seq<int> {
    ChecksOf(w, 0) + (ChecksOf(w, 1) + (ChecksOf(w, 2) + (ChecksOf(w, 3) + ChecksOf(w, 4))))
  }

  function Unless(passed: bool, failure: int): int {
    if passed then 0 else failure
  }

  /** The first code that is not 0. */
  function FirstFailure(codes: seq<int>): int {
    if codes == [] then 0 else if codes[0] != 0 then codes[0] else FirstFailure(codes[1..])
  }

  lemma {:induction false} FirstFailureAppend(a: seq<int>, b: seq<int>)
    ensures FirstFailure(a + b) == if FirstFailure(a) != 0 then FirstFailure(a) else FirstFailure(b)
  {
    if a == [] {
      assert a + b == b;
    } else {
      assert (a + b)[0] == a[0] && (a + b)[1..] == a[1..] + b;
      FirstFailureAppend(a[1..], b);
    }
  }

  /** The checks of one exchange. */
  function ChecksOf(w: World, exchange: nat): seq<int>
    requires exchange < 5
  {
    match exchange
    case 0 =>
      [w.cert.http, w.cert.paired.code, Unless(w.cert.paired.text == "1", -1),
       w.cert.further.code, Unless(|w.cert.further.text| < 2 * 8192, -1)]
    case 1 =>
      [w.challenge.http, w.challenge.paired.code, Unless(w.challenge.paired.text == "1", -1),
       Unless(w.challenge.further.code == 0, -3)]
    case 2 =>
      [w.challengeResp.http, w.challengeResp.paired.code, Unless(w.challengeResp.paired.text == "1", -1),
       Unless(w.challengeResp.further.code == 0, -3), Unless(w.signatureVerified, -1), Unless(w.signed, -1)]
    case 3 => [w.secret.http, w.secret.paired.code, Unless(w.secret.paired.text == "1", -1)]
    case 4 => [w.final.http, w.final.paired.code, Unless(w.final.paired.text == "1", -1)]
  }

  lemma FirstFails(a: int, rest: seq<int>)
    ensures FirstFailure([a] + rest) == if a != 0 then a else FirstFailure(rest)
  {
    assert ([a] + rest)[1..] == rest;
  }

  /** The opening of an exchange is its first three checks. */
  lemma OpeningIsChecked(r: Reply, rest: seq<int>)
    ensures FirstFailure([r.http, r.paired.code, Unless(r.paired.text == "1", -1)] + rest)
         == Then(Opening(r), FirstFailure(rest))
  {
    var a, b, c := r.http, r.paired.code, Unless(r.paired.text == "1", -1);
    assert [a, b, c] + rest == [a] + ([b] + ([c] + rest));
    FirstFails(a, [b] + ([c] + rest));
    FirstFails(b, [c] + rest);
    FirstFails(c, rest);
  }

  lemma ExchangeIsChecked(w: World, exchange: nat)
    requires exchange < 5
    ensures Exchanged(w, exchange) == FirstFailure(ChecksOf(w, exchange))
  {
    var cs := ChecksOf(w, exchange);
    assert cs == [cs[0], cs[1], cs[2]] + cs[3..];
    match exchange
    case 0 =>
      OpeningIsChecked(w.cert, cs[3..]);
      assert cs[3..] == [cs[3]] + ([cs[4]] + []);
      FirstFails(cs[3], [cs[4]] + []);
      FirstFails(cs[4], []);
    case 1 =>
      OpeningIsChecked(w.challenge, cs[3..]);
      assert cs[3..] == [cs[3]] + [];
      FirstFails(cs[3], []);
    case 2 =>
      OpeningIsChecked(w.challengeResp, cs[3..]);
      assert cs[3..] == [cs[3]] + ([cs[4]] + ([cs[5]] + []));
      FirstFails(cs[3], [cs[4]] + ([cs[5]] + []));
      FirstFails(cs[4], [cs[5]] + []);
      FirstFails(cs[5], []);
    case 3 =>
      OpeningIsChecked(w.secret, []);
    case 4 =>
      OpeningIsChecked(w.final, []);
  }

  /** The call fails with the code of the first check that fails, and with no other. */
  lemma CodeIsFirstFailure(wasPaired: bool, game: int, w: World, ret: int, paired: bool, sent: seq<Request>)
    requires Pairs(wasPaired, game, w, ret, paired, sent)
    ensures ret == if wasPaired || game != 0 then -4 else if !w.bufferOk then -2 else FirstFailure(Checks(w))
  {
    if !wasPaired && game == 0 && w.bufferOk {
      VerdictIsFirstFailure(w);
    }
  }

  lemma VerdictIsFirstFailure(w: World)
    ensures Verdict(w) == FirstFailure(Checks(w))
  {
    ChecksFail(ChecksOf(w, 0), ChecksOf(w, 1), ChecksOf(w, 2), ChecksOf(w, 3), ChecksOf(w, 4));
    ExchangeIsChecked(w, 0);
    ExchangeIsChecked(w, 1);
    ExchangeIsChecked(w, 2);
    ExchangeIsChecked(w, 3);
    ExchangeIsChecked(w, 4);
  }

  lemma ChecksFail(a: seq<int>, b: seq<int>, c: seq<int>, d: seq<int>, e: seq<int>)
    ensures FirstFailure(a + (b + (c + (d + e))))
         == Then(FirstFailure(a), Then(FirstFailure(b), Then(FirstFailure(c), Then(FirstFailure(d), FirstFailure(e)))))
  {
    FirstFailureAppend(a, b + (c + (d + e)));
    FirstFailureAppend(b, c + (d + e));
    FirstFailureAppend(c, d + e);
    FirstFailureAppend(d, e);
  }
}
