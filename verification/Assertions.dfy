/**
 Getting the assertions of several credentials, one command after the other (section 5.3 of CTAP 2.0), and
 the commands that end this.
 */
module Assertions {
  import opened Wrappers
  import opened Bytes
  import opened Ctap
  import opened Residents
  import Sha

  const UP_FLAG: bv8 := 0x01
  const UV_FLAG: bv8 := 0x04
  const ED_FLAG: bv8 := 0x80
  const U32: nat := 0x1_0000_0000

  type HmacSecretInput = seq<bv8>

  datatype AssertionInput = AssertionInput(
    clientDataHash: seq<bv8>,
    authData: seq<bv8>,
    hmacSecret: Option<HmacSecretInput>,
    hasUv: bool)

  datatype Assertion = Assertion(
    credentialId: seq<bv8>,
    authData: seq<bv8>,
    signature: seq<bv8>,
    user: Option<(seq<bv8>, Option<seq<bv8>>)>,
    number: Option<nat>)

  datatype StatefulCommand =
    | Resetting
    | GettingAssertion(input: AssertionInput, next: seq<Resident>)

  /**
   A request for an assertion: whether its PIN parameters are well-formed, whether the user was verified
   or why not, and whether the user is present. An allow list comes as the first credential that it allows.
   */
  datatype Request = Request(
    rpId: seq<bv8>,
    clientDataHash: seq<bv8>,
    allowed: Option<Option<Resident>>,
    hmacSecret: Option<HmacSecretInput>,
    up: bool,
    precheck: Status,
    verified: Result<bool, StatusCode>,
    presence: Status,
    increment: nat)

  datatype Command =
    | GetAssertion(request: Request)
    | GetNextAssertion
    | GetInfo
    | Reset(presence: Status)
    | MakeCredential(credential: Resident)
    | OtherCommand

  datatype Response =
    | AssertionResponse(assertion: Assertion)
    | OtherResponse

  // ---------------------------------------------------------------------------------------------
  // Which credentials, and in which order

  function Flags(hasUv: bool, up: bool, extension: bool): bv8 {
    (if hasUv then UV_FLAG else 0) | (if up then UP_FLAG else 0) | (if extension then ED_FLAG else 0)
  }

  /** The data that an assertion is about: the relying party, the flags and the signature counter. */
  function AuthData(rpId: seq<bv8>, flags: bv8, counter: nat): seq<bv8> {
    var bytes := ToBigEndian(counter, 4);
    Sha.Digest(rpId) + [flags] + seq(4, i requires 0 <= i < 4 => bytes[i] as bv8)
  }

  /** Without user verification, nothing that identifies the user is shown. */
  function Shown(c: Resident, hasUv: bool): Resident {
    if hasUv then c else c.(userName := None)
  }

  function AllShown(cs: seq<Resident>, hasUv: bool): (shown: seq<Resident>)
    ensures |shown| == |cs|
  {
    seq(|cs|, i requires 0 <= i < |cs| => Shown(cs[i], hasUv))
  }

  ghost predicate Applicable(slots: Slots, rpId: seq<bv8>, hasUv: bool, c: Resident) {
    exists m: Resident :: Matches(slots, rpId, !hasUv, m) && c == Shown(m, hasUv)
  }

  predicate Ascending(cs: seq<Resident>) {
    forall i, j :: 0 <= i < j < |cs| ==> cs[i].creationOrder < cs[j].creationOrder
  }

  /** All applicable credentials, each once, in the order of their creation. */
  ghost predicate IsRanking(slots: Slots, rpId: seq<bv8>, hasUv: bool, cs: seq<Resident>) {
    Ascending(cs) && forall c :: c in cs <==> Applicable(slots, rpId, hasUv, c)
  }

  /** There is only one ranking. */
  lemma {:induction false} RankingUnique(slots: Slots, rpId: seq<bv8>, hasUv: bool, a: seq<Resident>, b: seq<Resident>)
    requires IsRanking(slots, rpId, hasUv, a) && IsRanking(slots, rpId, hasUv, b)
    ensures a == b
  {
    AscendingUnique(a, b);
  }

  lemma {:induction false} AscendingUnique(a: seq<Resident>, b: seq<Resident>)
    requires Ascending(a) && Ascending(b) && forall c :: c in a <==> c in b
    ensures a == b
  {
    assert |b| == 0 || b[0] in b;
    if a != [] {
      assert a[0] in b;
      assert b[0] in a;
      var i, j :| 0 <= i < |b| && b[i] == a[0] && 0 <= j < |a| && a[j] == b[0];
      assert a[0] == b[0];
      forall c ensures c in a[1..] <==> c in b[1..] {
        AscendingRest(a, c);
        AscendingRest(b, c);
      }
      AscendingUnique(a[1..], b[1..]);
    }
  }

  lemma AscendingRest(cs: seq<Resident>, c: Resident)
    requires Ascending(cs) && cs != []
    ensures c in cs[1..] <==> c in cs && c != cs[0]
  {
    if c in cs && c != cs[0] {
      var i :| 0 <= i < |cs| && cs[i] == c;
      assert cs[1..][i - 1] == c;
    }
  }

  /** Inserts a credential into a list ordered by creation. */
  function Inserted(cs: seq<Resident>, c: Resident): seq<Resident> {
    if cs == [] || cs[|cs| - 1].creationOrder <= c.creationOrder then cs + [c]
    else Inserted(cs[..|cs| - 1], c) + [cs[|cs| - 1]]
  }

  function SortedByOrder(cs: seq<Resident>): seq<Resident> {
    if cs == [] then [] else Inserted(SortedByOrder(cs[..|cs| - 1]), cs[|cs| - 1])
  }

  lemma {:induction false} InsertedIs(cs: seq<Resident>, c: Resident)
    requires Ascending(cs) && forall i :: 0 <= i < |cs| ==> cs[i].creationOrder != c.creationOrder
    ensures Ascending(Inserted(cs, c)) && forall x :: x in Inserted(cs, c) <==> x in cs || x == c
  {
    if cs != [] && cs[|cs| - 1].creationOrder > c.creationOrder {
      var rest, last := cs[..|cs| - 1], cs[|cs| - 1];
      InsertedIs(rest, c);
      assert cs == rest + [last];
      var front := Inserted(rest, c);
      forall i | 0 <= i < |front| ensures front[i].creationOrder < last.creationOrder {
        assert front[i] in front;
        if front[i] in rest {
          var j :| 0 <= j < |rest| && rest[j] == front[i];
          assert cs[j] == front[i];
        }
      }
    }
  }

  lemma {:induction false} SortedIs(cs: seq<Resident>)
    requires forall i, j :: 0 <= i < j < |cs| ==> cs[i].creationOrder != cs[j].creationOrder
    ensures Ascending(SortedByOrder(cs)) && forall x :: x in SortedByOrder(cs) <==> x in cs
  {
    if cs != [] {
      var rest, last := cs[..|cs| - 1], cs[|cs| - 1];
      SortedIs(rest);
      assert cs == rest + [last];
      forall i | 0 <= i < |SortedByOrder(rest)| ensures SortedByOrder(rest)[i].creationOrder != last.creationOrder {
        var x := SortedByOrder(rest)[i];
        assert x in SortedByOrder(rest);
        var j :| 0 <= j < |rest| && rest[j] == x;
        assert cs[j] == x;
      }
      InsertedIs(SortedByOrder(rest), last);
    }
  }

  /** Sorting what a relying party's credentials look like ranks them. */
  lemma SortedRanks(slots: Slots, rpId: seq<bv8>, hasUv: bool, cs: seq<Resident>)
    requires forall c :: c in cs <==> Matches(slots, rpId, !hasUv, c)
    requires forall i, j :: 0 <= i < j < |cs| ==> cs[i].creationOrder != cs[j].creationOrder
    ensures IsRanking(slots, rpId, hasUv, SortedByOrder(AllShown(cs, hasUv)))
  {
    var shown := AllShown(cs, hasUv);
    SortedIs(shown);
    forall c ensures c in shown <==> Applicable(slots, rpId, hasUv, c) {
      if c in shown {
        var i :| 0 <= i < |shown| && shown[i] == c;
        assert cs[i] in cs;
      }
      if Applicable(slots, rpId, hasUv, c) {
        var m :| Matches(slots, rpId, !hasUv, m) && c == Shown(m, hasUv);
        assert m in cs;
        var i :| 0 <= i < |cs| && cs[i] == m;
        assert shown[i] == c;
      }
    }
  }

  // ---------------------------------------------------------------------------------------------
  // Commands

  /** The input of the assertions that a request leads to. */
  function InputOf(q: Request, hasUv: bool, counter: nat): AssertionInput {
    AssertionInput(q.clientDataHash, AuthData(q.rpId, Flags(hasUv, q.up, q.hmacSecret.Some?), counter), q.hmacSecret,
                   hasUv)
  }

  /** Why a request is turned down before credentials are looked for. */
  function Refused(q: Request): Option<StatusCode> {
    if q.precheck.Err? then Some(q.precheck.error)
    else if q.hmacSecret.Some? && !q.up then Some(UnsupportedExtension)
    else if q.verified.Err? then Some(q.verified.error)
    else None
  }

  /** Why a request for some applicable credentials does not lead to an assertion. */
  function Prevented(q: Request, cs: seq<Resident>, fault: Fault): (error: Option<StatusCode>)
    ensures error.None? ==> cs != []
  {
    if q.up && q.presence.Err? then Some(q.presence.error)
    else if cs == [] then Some(NoCredentials)
    else if fault.Failing? then Some(fault.error)
    else None
  }

  /**
   The credentials that a request applies to: the one of its allow list, or all of the relying party in the
   order of their creation.
   */
  ghost predicate Applying(slots: Slots, q: Request, cs: seq<Resident>)
    requires q.verified.Ok?
  {
    match q.allowed
    case Some(Some(c)) => cs == [Shown(c, q.verified.value)]
    case Some(None) => cs == []
    case None => OrdersDiffer(slots) ==> IsRanking(slots, q.rpId, q.verified.value, cs)
  }

  class CtapState {
    const store: CredentialStore
    /** Signs a message with a private key. */
    const sign: (seq<bv8>, seq<bv8>) -> seq<bv8>
    /** The extension data of an assertion with a private key. */
    const extend: (seq<bv8>, HmacSecretInput, bool) -> Result<seq<bv8>, StatusCode>
    var stateful: Option<StatefulCommand>
    var granted: bool
    var counter: nat

    constructor (store: CredentialStore, sign: (seq<bv8>, seq<bv8>) -> seq<bv8>,
                 extend: (seq<bv8>, HmacSecretInput, bool) -> Result<seq<bv8>, StatusCode>, counter: nat)
      ensures this.store == store && this.sign == sign && this.extend == extend && this.counter == counter
      ensures stateful == Some(Resetting) && granted
    {
      this.store := store;
      this.sign := sign;
      this.extend := extend;
      this.stateful := Some(Resetting);
      this.granted := true;
      this.counter := counter;
    }

    /** The time for a stateful command is over. */
    method Expire()
      modifies this`granted
      ensures !granted
    {
      granted := false;
    }

    /** The response for a credential. */
    function Responded(c: Resident, input: AssertionInput, number: Option<nat>): Result<Response, StatusCode> {
      var extension := if input.hmacSecret.Some? then extend(c.privateKey, input.hmacSecret.value, input.hasUv)
        else Ok([]);
      if extension.Err? then Err(extension.error)
      else
        var authData := input.authData + extension.value;
        var user := if c.userHandle != [] then Some((c.userHandle, c.userName)) else None;
        Ok(AssertionResponse(Assertion(c.credentialId, authData, sign(c.privateKey, authData + input.clientDataHash),
                                       user, number)))
    }

    /** Increments the signature counter. */
    method IncrementCounter(increment: nat) returns (r: Status)
      modifies this`counter, store`faults
      ensures r == Outcome(NextFault(old(store.faults))) && store.faults == LaterFaults(old(store.faults))
      ensures counter == if Applied(NextFault(old(store.faults))) then (old(counter) + increment) % U32
              else old(counter)
    {
      var fault := NextFault(store.faults);
      store.faults := LaterFaults(store.faults);
      if Applied(fault) {
        counter := (counter + increment) % U32;
      }
      return Outcome(fault);
    }

    /** The credentials that a request applies to, in the order of their creation. */
    method ApplicableCredentials(q: Request, hasUv: bool) returns (cs: seq<Resident>)
      ensures q.allowed.Some? ==> cs == if q.allowed.value.Some? then [Shown(q.allowed.value.value, hasUv)] else []
      ensures q.allowed.None? && OrdersDiffer(store.slots) ==> IsRanking(store.slots, q.rpId, hasUv, cs)
    {
      hide IsRanking, OrdersDiffer, Ascending;
      if q.allowed.Some? {
        return if q.allowed.value.Some? then [Shown(q.allowed.value.value, hasUv)] else [];
      }
      var found := store.FilterCredential(q.rpId, !hasUv);
      if OrdersDiffer(store.slots) { SortedRanks(store.slots, q.rpId, hasUv, found); }
      return SortedByOrder(AllShown(found, hasUv));
    }

    /** Gets the assertion of the credential that was created last, and keeps the others for later. */
    method ProcessGetAssertion(q: Request) returns (r: Result<Response, StatusCode>, ghost cs: seq<Resident>)
      requires stateful.None?
      modifies this`stateful, this`granted, this`counter, store`faults
      ensures Refused(q).Some? ==> r == Err(Refused(q).value) && stateful.None?
      ensures Refused(q).None? ==>
                && Applying(store.slots, q, cs)
                && match Prevented(q, cs, NextFault(old(store.faults)))
                   case Some(error) => r == Err(error) && stateful.None?
                   case None =>
                     var n, input := |cs|, InputOf(q, q.verified.value, (old(counter) + q.increment) % U32);
                     && r == Responded(cs[n - 1], input, if n == 1 then None else Some(n))
                     && counter == (old(counter) + q.increment) % U32
                     && if n == 1 then stateful.None?
                       else stateful == Some(GettingAssertion(input, cs[..n - 1])) && granted
      ensures stateful.None? ==> granted == old(granted)
      ensures stateful.Some? ==> stateful.value.GettingAssertion?
    {
      hide IsRanking, OrdersDiffer, AuthData;
      cs := [];
      if q.precheck.Err? {
        return Err(q.precheck.error), cs;
      }
      if q.hmacSecret.Some? && !q.up {
        return Err(UnsupportedExtension), cs;
      }
      if q.verified.Err? {
        return Err(q.verified.error), cs;
      }
      var hasUv := q.verified.value;
      var applicable := ApplicableCredentials(q, hasUv);
      cs := applicable;
      if q.up && q.presence.Err? {
        return Err(q.presence.error), cs;
      }
      if applicable == [] {
        return Err(NoCredentials), cs;
      }
      var n := |applicable| - 1;
      var credential := applicable[n];
      applicable := applicable[..n];
      var counted := IncrementCounter(q.increment);
      if counted.Err? {
        return Err(counted.error), cs;
      }
      var input := AssertionInput(q.clientDataHash,
                                  AuthData(q.rpId, Flags(hasUv, q.up, q.hmacSecret.Some?), counter), q.hmacSecret,
                                  hasUv);
      var number := None;
      if applicable != [] {
        number := Some(|applicable| + 1);
        granted := true;
        stateful := Some(GettingAssertion(input, applicable));
      }
      r := Responded(credential, input, number);
    }

    /** Gets the assertion of the next credential. */
    method ProcessGetNextAssertion() returns (r: Result<Response, StatusCode>)
      modifies this`stateful
      ensures if granted && old(stateful).Some? && old(stateful).value.GettingAssertion?
              && old(stateful).value.next != [] then
                var input, cs := old(stateful).value.input, old(stateful).value.next;
                var n := |cs| - 1;
                r == Responded(cs[n], input, None) && stateful == Some(GettingAssertion(input, cs[..n]))
              else r == Err(NotAllowed) && stateful == old(stateful)
    {
      if !granted {
        return Err(NotAllowed);
      }
      if stateful.None? || !stateful.value.GettingAssertion? {
        return Err(NotAllowed);
      }
      var GettingAssertion(input, next) := stateful.value;
      if next == [] {
        return Err(NotAllowed);
      }
      var n := |next| - 1;
      var credential := next[n];
      stateful := Some(GettingAssertion(input, next[..n]));
      return Responded(credential, input, None);
    }

    /** Removes all credentials, right after power-on. */
    method ProcessReset(presence: Status) returns (r: Result<Response, StatusCode>)
      modifies store
      ensures r.Ok? ==> granted && stateful == Some(Resetting) && store.slots == map[]
      ensures !granted || stateful != Some(Resetting) ==> r == Err(NotAllowed) && unchanged(store)
    {
      if !granted {
        return Err(NotAllowed);
      }
      if stateful != Some(Resetting) {
        return Err(NotAllowed);
      }
      if presence.Err? {
        return Err(presence.error);
      }
      var s := store.Reset();
      return if s.Ok? then Ok(OtherResponse) else Err(s.error);
    }

    /** Processes a command. All but a few end a stateful command. */
    method ProcessCommand(command: Command) returns (r: Result<Response, StatusCode>, ghost cs: seq<Resident>)
      modifies this`stateful, this`granted, this`counter, store
      ensures command.GetInfo? ==> unchanged(this) && unchanged(store)
      ensures command.MakeCredential? || command.OtherCommand? ==> stateful.None? && granted == old(granted)
      ensures command.Reset? ==>
                && stateful == (if old(stateful) == Some(Resetting) then old(stateful) else None)
                  && granted == old(granted)
                && (r.Ok? ==> stateful == Some(Resetting))
      ensures command.GetNextAssertion? ==>
                && granted == old(granted) && unchanged(store) && counter == old(counter)
                && if granted && old(stateful).Some? && old(stateful).value.GettingAssertion?
                  && old(stateful).value.next != [] then
                     var input, next := old(stateful).value.input, old(stateful).value.next;
                     var n := |next| - 1;
                     r == Responded(next[n], input, None) && stateful == Some(GettingAssertion(input, next[..n]))
                   else
                     r == Err(NotAllowed)
                     && stateful == if old(stateful).Some?
                       && old(stateful).value.GettingAssertion? then old(stateful) else None
      ensures command.GetAssertion? ==> store.slots == old(store.slots)
      ensures command.GetAssertion? && Refused(command.request).Some? ==>
                r == Err(Refused(command.request).value) && stateful.None?
      ensures command.GetAssertion? && Refused(command.request).None? ==>
                && Applying(old(store.slots), command.request, cs)
                && match Prevented(command.request, cs, NextFault(old(store.faults)))
                   case Some(error) => r == Err(error) && stateful.None?
                   case None =>
                     var n, input := |cs|, InputOf(command.request, command.request.verified.value, counter);
                     && counter == (old(counter) + command.request.increment) % U32
                     && r == Responded(cs[n - 1], input, if n == 1 then None else Some(n))
                     && if n == 1 then stateful.None?
                       else stateful == Some(GettingAssertion(input, cs[..n - 1])) && granted
    {
      hide IsRanking, OrdersDiffer, AuthData;
      cs := [];
      match (command, stateful) {
        case (GetNextAssertion, Some(GettingAssertion(_, _))) =>
        case (Reset(_), Some(Resetting)) =>
        case (GetInfo, _) =>
        case (_, _) =>
          stateful := None;
      }
      match command {
        case GetAssertion(request) =>
          r, cs := ProcessGetAssertion(request);
        case GetNextAssertion =>
          r := ProcessGetNextAssertion();
        case GetInfo =>
          r := Ok(OtherResponse);
        case Reset(presence) =>
          r := ProcessReset(presence);
        case MakeCredential(credential) =>
          ghost var order;
          var s;
          s, order := store.MakeCredential(credential);
          r := if s.Ok? then Ok(OtherResponse) else Err(s.error);
        case OtherCommand =>
          r := Ok(OtherResponse);
      }
    }
  }

  // ---------------------------------------------------------------------------------------------
  // Runs

  /**
   What a request and the following commands get: the assertion of the most recent credential, then the
   others in the order of their creation from the most recent to the first, over the same data and counter,
   and then none.
   */
  ghost predicate Enumerated(s: CtapState, slots: Slots, fault: Fault, counter: nat, q: Request, asked: nat,
                             first: Result<Response, StatusCode>, nexts: seq<Result<Response, StatusCode>>,
                             cs: seq<Resident>)
  {
    if Refused(q).Some? then first == Err(Refused(q).value)
    else
      && IsRanking(slots, q.rpId, q.verified.value, cs)
      && match Prevented(q, cs, fault)
         case Some(error) => first == Err(error)
         case None =>
           var n, input := |cs|, InputOf(q, q.verified.value, (counter + q.increment) % U32);
           && first == s.Responded(cs[n - 1], input, if n == 1 then None else Some(n))
           && (first.Ok? ==>
                 && |nexts| == asked
                 && forall i :: 0 <= i < asked ==>
                      nexts[i] == if i < n - 1 then s.Responded(cs[n - 2 - i], input, None) else Err(NotAllowed))
  }

  /**
   The enumeration of assertions. Asking for information in between changes nothing. A request that is
   turned down leaves no enumeration pending.
   */
  method Enumerate(s: CtapState, q: Request, steps: seq<bool>)
    returns (first: Result<Response, StatusCode>, nexts: seq<Result<Response, StatusCode>>, ghost cs: seq<Resident>)
    requires OrdersDiffer(s.store.slots) && q.allowed.None?
    modifies s, s.store
    ensures Enumerated(s, old(s.store.slots), NextFault(old(s.store.faults)), old(s.counter), q, Asked(steps), first,
                       nexts, cs)
    ensures Refused(q).Some? || Prevented(q, cs, NextFault(old(s.store.faults))).Some? ==> s.stateful.None?
  {
    hide IsRanking, OrdersDiffer, InputOf;
    nexts := [];
    first, cs := s.ProcessCommand(GetAssertion(q));
    if first.Err? {
      return;
    }
    ghost var n, input := |cs|, InputOf(q, q.verified.value, s.counter);
    ghost var before := s.counter;
    AskedNext(steps, 0);
    for k := 0 to |steps|
      invariant |nexts| == Asked(steps[..k]) && s.counter == before
      invariant if n == 1 then s.stateful.None?
                else s.granted && s.stateful == Some(GettingAssertion(input,
                    cs[..if |nexts| < n then n - 1 - |nexts| else 0]))
      invariant forall i :: 0 <= i < |nexts| ==>
        nexts[i] == if i < n - 1 then s.Responded(cs[n - 2 - i], input, None) else Err(NotAllowed)
    {
      AskedNext(steps, k);
      var r;
      ghost var none;
      ghost var left := if |nexts| < n then n - 1 - |nexts| else 0;
      assert left > 0 ==> cs[..left][..left - 1] == cs[..left - 1] && cs[..left][left - 1] == cs[left - 1];
      if steps[k] {
        r, none := s.ProcessCommand(GetNextAssertion);
        nexts := nexts + [r];
      } else {
        r, none := s.ProcessCommand(GetInfo);
      }
    }
    assert steps[..|steps|] == steps;
  }

  /**
   A credential store that any run of new credentials and resets led to, with failing writes, is enumerated
   like this: its creation orders are distinct.
   */
  method RunAndEnumerate(events: seq<Event>, sign: (seq<bv8>, seq<bv8>) -> seq<bv8>,
                         extend: (seq<bv8>, HmacSecretInput, bool) -> Result<seq<bv8>, StatusCode>, counter: nat,
                         faults: seq<Fault>, q: Request, steps: seq<bool>)
    returns (s: CtapState, results: seq<Status>, first: Result<Response, StatusCode>,
             nexts: seq<Result<Response, StatusCode>>, ghost states: seq<Slots>, ghost cs: seq<Resident>)
    requires |events| < U64 - 1 && q.allowed.None?
    ensures |results| == |events| && |states| == |events| + 1 && states[0] == map[]
    ensures forall i :: 0 <= i < |events| ==> Residents.Stepped(states[i], events[i], results[i], states[i + 1])
    ensures s.sign == sign && s.extend == extend && Slotted(states[|events|])
    ensures Enumerated(s, states[|events|], NextFault(faults), counter, q, Asked(steps), first, nexts, cs)
  {
    hide Enumerated, Residents.Stepped, Admitted;
    var store := new CredentialStore(map[]);
    results, states := Residents.Run(store, events);
    store.Inject(faults);
    s := new CtapState(store, sign, extend, counter);
    SlottedOrders(store.slots);
    first, nexts, cs := Enumerate(s, q, steps);
  }

  lemma SlottedOrders(slots: Slots)
    requires Slotted(slots)
    ensures OrdersDiffer(slots)
  {
  }

  /** How often the next assertion is asked for. */
  function Asked(steps: seq<bool>): nat {
    if steps == [] then 0 else Asked(steps[..|steps| - 1]) + if steps[|steps| - 1] then 1 else 0
  }

  lemma AskedNext(steps: seq<bool>, k: nat)
    ensures Asked(steps[..0]) == 0
    ensures k < |steps| ==> Asked(steps[..k + 1]) == Asked(steps[..k]) + if steps[k] then 1 else 0
  {
    assert k < |steps| ==> steps[..k + 1][..k] == steps[..k];
  }

  /**
   The end of an enumeration. Once its time is over, or after any command but those that ask for the next
   assertion or for information, no next assertion is given until a new enumeration starts.
   */
  method EndEnumeration(s: CtapState, end: Option<Command>, commands: seq<Command>)
    returns (results: seq<Result<Response, StatusCode>>)
    requires end.Some? ==> !end.value.GetNextAssertion? && !end.value.GetInfo? && !end.value.GetAssertion?
    requires forall i :: 0 <= i < |commands| ==> !commands[i].GetAssertion?
    modifies s, s.store
    ensures |results| == |commands|
    ensures forall i :: 0 <= i < |commands| && commands[i].GetNextAssertion? ==> results[i] == Err(NotAllowed)
  {
    var r;
    ghost var cs;
    if end.None? {
      s.Expire();
    } else {
      r, cs := s.ProcessCommand(end.value);
    }
    results := [];
    for k := 0 to |commands|
      invariant |results| == k
      invariant !s.granted || s.stateful.None? || s.stateful.value.Resetting?
      invariant forall i :: 0 <= i < k && commands[i].GetNextAssertion? ==> results[i] == Err(NotAllowed)
    {
      r, cs := s.ProcessCommand(commands[k]);
      results := results + [r];
    }
  }
}
