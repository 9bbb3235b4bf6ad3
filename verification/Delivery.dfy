/**
 * Sending a frozen document by e-mail. The provider accepts a message inside a local transaction
 * that may still roll back, so its state and the committed local rows are modelled apart.
 */
module Delivery {
  import opened Rows

  datatype DeliveryStatus = Queued | Delivered | Bounced | Complained | Failed

  predicate Negative(status: DeliveryStatus)
  {
    status == Bounced || status == Complained
  }

  // ---- The provider -----------------------------------------------------------------------------------

  datatype Email = Email(to: string, key: string, content: string)

  datatype Receipt = Receipt(messageId: nat, status: DeliveryStatus)

  datatype SentEmail = SentEmail(email: Email, receipt: Receipt)

  /** The messages the provider has accepted; the receipt of the n-th one carries the id n. */
  type Outbox = seq<SentEmail>

  function FindKey(sent: Outbox, key: string): Option<nat>
  {
    if sent == [] then None
    else if sent[|sent| - 1].email.key == key then Some(|sent| - 1)
    else FindKey(sent[..|sent| - 1], key)
  }

  /** A known key returns its receipt; otherwise the message is accepted with the given status. */
  function Accept(sent: Outbox, email: Email, status: DeliveryStatus): (Outbox, Receipt)
  {
    if email.key != "" && FindKey(sent, email.key).Some? then (sent, sent[FoundAt(sent, email.key)].receipt)
    else
      var receipt := Receipt(|sent| + 1, status);
      (sent + [SentEmail(email, receipt)], receipt)
  }

  function FoundAt(sent: Outbox, key: string): (i: nat)
    requires FindKey(sent, key).Some?
    ensures i < |sent| && sent[i].email.key == key
  {
    if sent[|sent| - 1].email.key == key then |sent| - 1 else FoundAt(sent[..|sent| - 1], key)
  }

  /** One message per idempotency key, numbered in order. */
  ghost predicate OncePerKey(sent: Outbox)
  {
    && (forall i, j | 0 <= i < j < |sent| && sent[i].email.key != "" :: sent[i].email.key != sent[j].email.key)
    && forall i | 0 <= i < |sent| :: sent[i].receipt.messageId == i + 1
  }

  lemma {:induction false} FindKeyMeans(sent: Outbox, key: string)
    ensures FindKey(sent, key).Some? <==> exists i :: 0 <= i < |sent| && sent[i].email.key == key
  {
    if sent != [] {
      FindKeyMeans(sent[..|sent| - 1], key);
      if i :| 0 <= i < |sent| && sent[i].email.key == key {
        assert i < |sent| - 1 ==> sent[..|sent| - 1][i].email.key == key;
      }
    }
  }

  /** Accepting keeps one message per key, and the receipt is that of the key's message. */
  lemma AcceptOnce(sent: Outbox, email: Email, status: DeliveryStatus)
    requires OncePerKey(sent)
    ensures var (after, receipt) := Accept(sent, email, status);
            && OncePerKey(after) && sent <= after
            && 1 <= receipt.messageId <= |after|
            && after[receipt.messageId - 1].receipt == receipt
            && after[receipt.messageId - 1].email.key == email.key
            && (after == sent || (after == sent + [SentEmail(email, receipt)] &&
                                  (email.key == "" || FindKey(sent, email.key).None?)))
            && (FindKey(sent, email.key).None? ==> after[receipt.messageId - 1].email == email)
  {
    FindKeyMeans(sent, email.key);
  }

  /** The dictionary of receipts holds exactly the keys of the accepted messages. */
  ghost predicate Indexed(sent: Outbox, receipts: map<string, Receipt>)
  {
    && (forall i | 0 <= i < |sent| && sent[i].email.key != "" ::
          sent[i].email.key in receipts && receipts[sent[i].email.key] == sent[i].receipt)
    && (forall key | key in receipts :: key != "" && FindKey(sent, key).Some?)
  }

  lemma IndexFinds(sent: Outbox, receipts: map<string, Receipt>, key: string)
    requires Indexed(sent, receipts) && key != ""
    ensures key in receipts <==> FindKey(sent, key).Some?
    ensures key in receipts ==> receipts[key] == sent[FoundAt(sent, key)].receipt
  {
    if FindKey(sent, key).Some? {
      var i := FoundAt(sent, key);
    }
  }

  lemma IndexGrows(sent: Outbox, receipts: map<string, Receipt>, message: SentEmail)
    requires Indexed(sent, receipts) && (message.email.key != "" ==> FindKey(sent, message.email.key).None?)
    ensures Indexed(sent + [message],
                    if message.email.key == "" then receipts else receipts[message.email.key := message.receipt])
  {
    var after := sent + [message];
    FindKeyMeans(sent, message.email.key);
    assert after[|sent|] == message;
    forall key | key in receipts || key == message.email.key ensures FindKey(after, key).Some? {
      FindKeyMeans(sent, key);
      FindKeyMeans(after, key);
      if key in receipts {
        var i :| 0 <= i < |sent| && sent[i].email.key == key;
        assert after[i].email.key == key;
      }
    }
  }

  class StubEmailGateway {
    var sent: Outbox
    var receiptsByKey: map<string, Receipt>

    ghost predicate Valid()
      reads this
    {
      OncePerKey(sent) && Indexed(sent, receiptsByKey)
    }

    constructor ()
      ensures Valid() && sent == []
    {
      sent, receiptsByKey := [], map[];
    }

    method Send(email: Email) returns (receipt: Receipt)
      requires Valid()
      modifies this
      ensures Valid()
      ensures (sent, receipt) == Accept(old(sent), email, Queued)
    {
      hide OncePerKey, Indexed;
      if email.key != "" {
        IndexFinds(sent, receiptsByKey, email.key);
      }
      if email.key != "" && email.key in receiptsByKey {
        return receiptsByKey[email.key];
      }
      AcceptOnce(sent, email, Queued);
      receipt := Receipt(|sent| + 1, Queued);
      IndexGrows(sent, receiptsByKey, SentEmail(email, receipt));
      sent := sent + [SentEmail(email, receipt)];
      if email.key != "" {
        receiptsByKey := receiptsByKey[email.key := receipt];
      }
    }
  }

  // ---- Local rows -------------------------------------------------------------------------------------

  datatype Attempt = Attempt(key: string, recipient: string, renter: string)

  datatype StatusEvent = StatusEvent(attempt: nat, status: DeliveryStatus, reference: nat)

  datatype Local = Local(attempts: seq<Attempt>, events: seq<StatusEvent>, suppressed: set<(string, DeliveryStatus)>)

  /** A status event; the trigger derives the suppression of the address. */
  function Record(local: Local, event: StatusEvent): Local
  {
    Local(local.attempts, local.events + [event],
          if Negative(event.status) && event.attempt < |local.attempts|
          then local.suppressed + {(local.attempts[event.attempt].recipient, event.status)}
          else local.suppressed)
  }

  predicate Suppressed(local: Local, recipient: string)
  {
    (recipient, Bounced) in local.suppressed || (recipient, Complained) in local.suppressed
  }

  /** The append-only history itself, not its projection. */
  predicate NegativeHistory(local: Local, recipient: string)
  {
    exists k :: 0 <= k < |local.events| && Negative(local.events[k].status)
             && local.events[k].attempt < |local.attempts|
             && local.attempts[local.events[k].attempt].recipient == recipient
  }

  function FindAttempt(attempts: seq<Attempt>, key: string): Option<nat>
  {
    if attempts == [] then None
    else if attempts[|attempts| - 1].key == key then Some(|attempts| - 1)
    else FindAttempt(attempts[..|attempts| - 1], key)
  }

  // ---- One dispatch -------------------------------------------------------------------------------------

  datatype Kind = AnnualStatement | Uvi

  datatype Artifact = Missing | HashMismatch | ProductionBlocked | Frozen(content: string)

  datatype Provider = NoProvider | WithoutIdempotency | Idempotent

  datatype Request = Request(kind: Kind, occurrence: string, renter: string, artifact: Artifact, sender: string)

  datatype BlockReason =
    | MissingEmail | RecipientSuppressed | MissingArtifact | HashDiffers | NotReleased | InvalidSender
    | MissingProvider | IdempotencyUnavailable

  datatype Outcome = Blocked(reason: BlockReason) | AlreadyProcessed | Rejected | Handed(receipt: Receipt)

  predicate Space(c: char)
  {
    c == ' ' || c == '\t' || c == '\n' || c == '\r'
  }

  function Strip(text: string): string
  {
    if text == "" then ""
    else if Space(text[0]) then Strip(text[1..])
    else if Space(text[|text| - 1]) then Strip(text[..|text| - 1])
    else text
  }

  function Lower(text: string): string
  {
    seq(|text|, i requires 0 <= i < |text| => if 'A' <= text[i] <= 'Z' then text[i] - 'A' + 'a' else text[i])
  }

  function Normalized(address: string): string
  {
    Lower(Strip(address))
  }

  predicate EndsWith(text: string, suffix: string)
  {
    |suffix| <= |text| && text[|text| - |suffix|..] == suffix
  }

  function KindName(kind: Kind): string
  {
    if kind == AnnualStatement then "annual_statement" else "uvi"
  }

  function IdempotencyKey(request: Request): string
  {
    "delivery:" + KindName(request.kind) + ":" + request.occurrence + ":" + request.renter
  }

  /** Exactly one recipient, and something like an address: what the message and its row demand. */
  predicate Addressable(recipient: string)
  {
    ',' !in recipient && ';' !in recipient && '@' in recipient
  }

  /** Why nothing is sent, if so, in the order in which the job looks. */
  function Obstacle(local: Local, address: Option<string>, request: Request, provider: Provider): Option<BlockReason>
  {
    if address.None? || Strip(address.value) == "" then Some(MissingEmail)
    else if Suppressed(local, Normalized(address.value)) then Some(RecipientSuppressed)
    else if NegativeHistory(local, Normalized(address.value)) then Some(RecipientSuppressed)
    else if request.artifact == Missing then Some(MissingArtifact)
    else if request.artifact == HashMismatch then Some(HashDiffers)
    else if request.artifact == ProductionBlocked then Some(NotReleased)
    else if !EndsWith(Normalized(request.sender), "@lokara.de") then Some(InvalidSender)
    else if provider == NoProvider then Some(MissingProvider)
    else if provider == WithoutIdempotency then Some(IdempotencyUnavailable)
    else None
  }

  /** The transaction of one dispatch: the rows it would commit, the provider's new state, the outcome. */
  function Dispatch(local: Local, sent: Outbox, address: Option<string>, request: Request, provider: Provider,
                    status: DeliveryStatus): (Local, Outbox, Outcome)
  {
    var obstacle := Obstacle(local, address, request, provider);
    if obstacle.Some? then (local, sent, Blocked(obstacle.value))
    else if FindAttempt(local.attempts, IdempotencyKey(request)).Some? then (local, sent, AlreadyProcessed)
    else if !Addressable(Normalized(address.value)) then (local, sent, Rejected)
    else
      var key, recipient := IdempotencyKey(request), Normalized(address.value);
      var (after, receipt) := Accept(sent, Email(recipient, key, ContentOf(request.artifact)), status);
      var claimed := local.(attempts := local.attempts + [Attempt(key, recipient, request.renter)]);
      (Record(claimed, StatusEvent(|local.attempts|, receipt.status, receipt.messageId)), after, Handed(receipt))
  }

  function ContentOf(artifact: Artifact): string
  {
    if artifact.Frozen? then artifact.content else ""
  }

  // ---- What a dispatch answers ----------------------------------------------------------------------------

  ghost predicate Blank(text: string)
  {
    forall i | 0 <= i < |text| :: text[i] == ' ' || text[i] == '\t' || text[i] == '\n' || text[i] == '\r'
  }

  ghost predicate Edged(text: string)
  {
    text == "" || (!Blank(text[..1]) && !Blank(text[|text| - 1..]))
  }

  ghost predicate Wraps(text: string, core: string)
  {
    exists a, b :: Blank(a) && Blank(b) && text == a + core + b
  }

  lemma WrapsItself(text: string)
    ensures Wraps(text, text)
  {
    assert Blank("") && text == "" + text + "";
  }

  lemma WrapsFront(c: char, text: string, core: string)
    requires Space(c) && Wraps(text, core)
    ensures Wraps([c] + text, core)
  {
    var a, b :| Blank(a) && Blank(b) && text == a + core + b;
    assert [c] + text == ([c] + a) + core + b;
    assert Blank([c] + a);
  }

  lemma WrapsBack(c: char, text: string, core: string)
    requires Space(c) && Wraps(text, core)
    ensures Wraps(text + [c], core)
  {
    var a, b :| Blank(a) && Blank(b) && text == a + core + b;
    assert text + [c] == a + core + (b + [c]);
    assert Blank(b + [c]);
  }

  /** Stripping takes the blanks off both ends. */
  lemma {:induction false} StripIs(text: string)
    ensures Wraps(text, Strip(text)) && Edged(Strip(text))
    decreases |text|
  {
    hide Wraps, Space, Edged;
    var n := |text| - 1;
    if text != "" && Space(text[0]) {
      StripIs(text[1..]);
      WrapsFront(text[0], text[1..], Strip(text));
      assert text == [text[0]] + text[1..];
    } else if text != "" && Space(text[n]) {
      StripIs(text[..n]);
      WrapsBack(text[n], text[..n], Strip(text));
      assert text == text[..n] + [text[n]];
    } else {
      WrapsItself(text);
      NothingToStrip(text);
    }
  }

  lemma NothingToStrip(text: string)
    requires text != "" ==> !Space(text[0]) && !Space(text[|text| - 1])
    ensures Edged(text)
  {
  }

  /** And what is left is put in lower case, letter by letter. */
  lemma NormalizedIs(text: string)
    ensures |Normalized(text)| == |Strip(text)|
    ensures forall i | 0 <= i < |Strip(text)| ::
              Normalized(text)[i] == if 'A' <= Strip(text)[i] <= 'Z' then (Strip(text)[i] as int + 32) as char
                                     else Strip(text)[i]
  {
  }

  lemma {:induction false} StripEmpty(text: string)
    ensures Strip(text) == "" <==> Blank(text)
    decreases |text|
  {
    if text != "" {
      if Space(text[0]) {
        StripEmpty(text[1..]);
        assert forall i | 1 <= i < |text| :: text[i] == text[1..][i - 1];
      } else if Space(text[|text| - 1]) {
        StripEmpty(text[..|text| - 1]);
      }
    }
  }

  /** A bounce or complaint stands against the address: in the history, or as a suppression of its own. */
  ghost predicate Barred(local: Local, recipient: string)
  {
    || (recipient, Bounced) in local.suppressed || (recipient, Complained) in local.suppressed
    || exists k :: 0 <= k < |local.events| && local.events[k].attempt < |local.attempts|
                   && (local.events[k].status == Bounced || local.events[k].status == Complained)
                   && local.attempts[local.events[k].attempt].recipient == recipient
  }

  ghost predicate InDomain(sender: string)
  {
    exists name :: Normalized(sender) == name + "@lokara.de"
  }

  ghost predicate AttemptedBefore(local: Local, request: Request)
  {
    exists a :: 0 <= a < |local.attempts| && local.attempts[a].key == IdempotencyKey(request)
  }

  /** A present address against which nothing stands. */
  ghost predicate Writable(local: Local, address: Option<string>)
  {
    address.Some? && !Blank(address.value) && !Barred(local, Normalized(address.value))
  }

  /** Everything that the job looks at before it looks for an earlier attempt. */
  ghost predicate Clear(local: Local, address: Option<string>, request: Request, provider: Provider)
  {
    Writable(local, address) && request.artifact.Frozen? && InDomain(request.sender) && provider == Idempotent
  }

  lemma DomainIs(sender: string)
    ensures EndsWith(Normalized(sender), "@lokara.de") <==> InDomain(sender)
  {
    hide Normalized;
    var text, n := Normalized(sender), |"@lokara.de"|;
    if EndsWith(text, "@lokara.de") {
      assert text == text[..|text| - n] + "@lokara.de";
    }
    if name :| text == name + "@lokara.de" {
      assert text[|text| - n..] == "@lokara.de";
    }
  }

  lemma BarredIs(local: Local, recipient: string)
    ensures Barred(local, recipient) <==> Suppressed(local, recipient) || NegativeHistory(local, recipient)
  {
  }

  /**
   * Which answer a dispatch gives, for every answer. In particular it hands a message over exactly
   * when the address is present, nothing stands against it, the document is released and intact, the
   * sender is in the domain, the provider can deduplicate, no attempt was made before, and the address
   * is one address.
   */
  lemma DispatchAnswers(local: Local, sent: Outbox, address: Option<string>, request: Request, provider: Provider,
                        status: DeliveryStatus)
    ensures var answer := Dispatch(local, sent, address, request, provider, status).2;
            && (answer == Blocked(MissingEmail) <==> address.None? || Blank(address.value))
            && (answer == Blocked(RecipientSuppressed) <==>
                  address.Some? && !Blank(address.value) && Barred(local, Normalized(address.value)))
            && (answer == Blocked(MissingArtifact) <==> Writable(local, address) && request.artifact == Missing)
            && (answer == Blocked(HashDiffers) <==> Writable(local, address) && request.artifact == HashMismatch)
            && (answer == Blocked(NotReleased) <==> Writable(local, address) && request.artifact == ProductionBlocked)
            && (answer == Blocked(InvalidSender) <==>
                  Writable(local, address) && request.artifact.Frozen? && !InDomain(request.sender))
            && (answer == Blocked(MissingProvider) <==>
                  Writable(local, address) && request.artifact.Frozen? && InDomain(request.sender)
                    && provider == NoProvider)
            && (answer == Blocked(IdempotencyUnavailable) <==>
                  Writable(local, address) && request.artifact.Frozen? && InDomain(request.sender)
                  && provider == WithoutIdempotency)
            && (answer == AlreadyProcessed
                <==> Clear(local, address, request, provider) && AttemptedBefore(local, request))
            && (answer == Rejected <==>
                  Clear(local, address, request, provider) && !AttemptedBefore(local, request)
                  && !SingleAddress(Normalized(address.value)))
            && (answer.Handed? <==>
                  Clear(local, address, request, provider) && !AttemptedBefore(local, request)
                  && SingleAddress(Normalized(address.value)))
  {
    hide Strip, Normalized, Suppressed, NegativeHistory, FindAttempt, EndsWith, Blank, Barred, InDomain, IdempotencyKey;
    hide Record, Accept;
    FindAttemptMeans(local.attempts, IdempotencyKey(request));
    DomainIs(request.sender);
    if address.Some? {
      StripEmpty(address.value);
      BarredIs(local, Normalized(address.value));
    }
  }

  /** One address and not a list: an at sign, no comma and no semicolon. */
  ghost predicate SingleAddress(recipient: string)
  {
    && (exists i :: 0 <= i < |recipient| && recipient[i] == '@')
    && forall i | 0 <= i < |recipient| :: recipient[i] != ',' && recipient[i] != ';'
  }

  /** The key names the kind, the occurrence and the renter. */
  lemma KeyText(request: Request)
    ensures IdempotencyKey(request) == (match request.kind
                                        case AnnualStatement => "delivery:annual_statement:"
                                        case Uvi => "delivery:uvi:") + request.occurrence + ":" + request.renter
  {
  }

  // ---- Runs with crashes -----------------------------------------------------------------------------------

  datatype World = World(local: Local, sent: Outbox, addresses: map<string, string>)

  datatype Step =
    | Attempted(request: Request, provider: Provider, status: DeliveryStatus, committed: bool)
    | OtherEvent(attempt: nat, reported: DeliveryStatus, reference: nat)
    | ChangeAddress(renter: string, address: string)
    | DropSuppression(recipient: string)

  function AddressOf(w: World, renter: string): Option<string>
  {
    if renter in w.addresses then Some(w.addresses[renter]) else None
  }

  /** The reference of an attempt's first status event, the one that its dispatch wrote. */
  ghost function ReferenceOf(events: seq<StatusEvent>, attempt: nat): nat
  {
    if events == [] then 0
    else if events[0].attempt == attempt then events[0].reference
    else ReferenceOf(events[1..], attempt)
  }

  /**
   * A dispatch whose transaction rolls back leaves the provider's state behind, and nothing else.
   * Only the dispatch itself writes status events; `OtherEvent` stands for any writer still to come.
   */
  function Take(w: World, step: Step): World
  {
    match step
    case Attempted(request, provider, status, committed) =>
      var (local, sent, _) := Dispatch(w.local, w.sent, AddressOf(w, request.renter), request, provider, status);
      World(if committed then local else w.local, sent, w.addresses)
    case OtherEvent(a, status, reference) =>
      if a < |w.local.attempts| then w.(local := Record(w.local, StatusEvent(a, status, reference))) else w
    case ChangeAddress(renter, address) => w.(addresses := w.addresses[renter := address])
    case DropSuppression(recipient) =>
      w.(local := w.local.(suppressed := w.local.suppressed - {(recipient, Bounced), (recipient, Complained)}))
  }

  function Run(w: World, steps: seq<Step>): World
  {
    if steps == [] then w else Take(Run(w, steps[..|steps| - 1]), steps[|steps| - 1])
  }

  const START := World(Local([], [], {}), [], map[])

  // ---- What every run keeps ----------------------------------------------------------------------------------

  ghost predicate HasEvent(events: seq<StatusEvent>, a: nat)
  {
    exists k :: 0 <= k < |events| && events[k].attempt == a
  }

  ghost predicate AttemptBacked(w: World, a: nat)
    requires a < |w.local.attempts|
  {
    var reference := ReferenceOf(w.local.events, a);
    && w.local.attempts[a].key != ""
    && HasEvent(w.local.events, a)
    && 1 <= reference <= |w.sent|
    && w.sent[reference - 1].email.key == w.local.attempts[a].key
    && w.sent[reference - 1].receipt.messageId == reference
  }

  ghost predicate Sound(w: World)
  {
    && OncePerKey(w.sent)
    && (forall a, b | 0 <= a < b < |w.local.attempts| :: w.local.attempts[a].key != w.local.attempts[b].key)
    && (forall a: nat | a < |w.local.attempts| :: AttemptBacked(w, a))
    && (forall k | 0 <= k < |w.local.events| :: w.local.events[k].attempt < |w.local.attempts|)
  }

  lemma {:induction false} ReferenceAppended(events: seq<StatusEvent>, event: StatusEvent, a: nat)
    ensures HasEvent(events, a) ==> ReferenceOf(events + [event], a) == ReferenceOf(events, a)
    ensures !HasEvent(events, a) ==>
              ReferenceOf(events + [event], a) == (if event.attempt == a then event.reference else 0)
  {
    if events == [] {
      assert events + [event] == [event];
    } else {
      ReferenceAppended(events[1..], event, a);
      assert (events + [event])[1..] == events[1..] + [event];
      assert events[0].attempt != a ==> forall k | 0 <= k < |events| && events[k].attempt == a ::
          events[1..][k - 1].attempt == a;
    }
  }

  lemma {:induction false} FindAttemptMeans(attempts: seq<Attempt>, key: string)
    ensures FindAttempt(attempts, key).Some? <==> exists a :: 0 <= a < |attempts| && attempts[a].key == key
  {
    if attempts != [] {
      FindAttemptMeans(attempts[..|attempts| - 1], key);
      if a :| 0 <= a < |attempts| && attempts[a].key == key {
        assert a < |attempts| - 1 ==> attempts[..|attempts| - 1][a].key == key;
      }
    }
  }

  lemma RequestKeyed(request: Request)
    ensures IdempotencyKey(request) != ""
  {
    assert IdempotencyKey(request)[0] == 'd';
  }

  /** A further event for an attempt that already has one keeps everything, whatever it says. */
  lemma OtherEventKeeps(w: World, a: nat, status: DeliveryStatus, reference: nat)
    requires Sound(w) && a < |w.local.attempts|
    ensures Sound(Take(w, OtherEvent(a, status, reference)))
  {
    hide ReferenceOf, OncePerKey, HasEvent;
    var event := StatusEvent(a, status, reference);
    var after := Take(w, OtherEvent(a, status, reference));
    forall b: nat | b < |w.local.attempts|
      ensures ReferenceOf(after.local.events, b) == ReferenceOf(w.local.events, b) && AttemptBacked(after, b)
    {
      assert AttemptBacked(w, b);
      ReferenceAppended(w.local.events, event, b);
      EventStays(w.local.events, event, b);
    }
  }

  lemma EventStays(events: seq<StatusEvent>, event: StatusEvent, a: nat)
    requires HasEvent(events, a) || event.attempt == a
    ensures HasEvent(events + [event], a)
  {
    var all := events + [event];
    if k :| 0 <= k < |events| && events[k].attempt == a {
      assert all[k].attempt == a;
    } else {
      assert all[|events|].attempt == a;
    }
  }

  /** The provider's accepted messages grow; nothing else moves. */
  lemma RollbackKeeps(w: World, sent: Outbox)
    requires Sound(w) && OncePerKey(sent) && w.sent <= sent
    ensures Sound(w.(sent := sent))
  {
    forall a: nat | a < |w.local.attempts| ensures AttemptBacked(w.(sent := sent), a) {
      assert AttemptBacked(w, a);
    }
  }

  /** A claim with its first event, backed by the provider's message of the same key. */
  lemma CommitKeeps(w: World, attempt: Attempt, receipt: Receipt)
    requires Sound(w) && attempt.key != "" && FindAttempt(w.local.attempts, attempt.key).None?
    requires 1 <= receipt.messageId <= |w.sent| && w.sent[receipt.messageId - 1].receipt == receipt
    requires w.sent[receipt.messageId - 1].email.key == attempt.key
    ensures var claimed := w.local.(attempts := w.local.attempts + [attempt]);
            Sound(w.(local := Record(claimed, StatusEvent(|w.local.attempts|, receipt.status, receipt.messageId))))
  {
    var n, events := |w.local.attempts|, w.local.events;
    var event := StatusEvent(n, receipt.status, receipt.messageId);
    var after := w.(local := Record(w.local.(attempts := w.local.attempts + [attempt]), event));
    FindAttemptMeans(w.local.attempts, attempt.key);
    forall a: nat | a <= n
      ensures ReferenceOf(after.local.events, a) == (if a == n then receipt.messageId else ReferenceOf(events, a))
      ensures AttemptBacked(after, a)
    {
      if a < n {
        assert AttemptBacked(w, a);
      }
      ReferenceAppended(events, event, a);
      EventStays(events, event, a);
    }
    forall k | 0 <= k < |after.local.events| ensures after.local.events[k].attempt <= n {
      if k < |events| {
        assert after.local.events[k] == events[k];
      }
    }
  }

  lemma DispatchKeeps(w: World, request: Request, provider: Provider, status: DeliveryStatus, committed: bool)
    requires Sound(w)
    ensures Sound(Take(w, Attempted(request, provider, status, committed)))
  {
    hide OncePerKey, Obstacle, Normalized, FindAttempt, Record, Addressable, AttemptBacked, IdempotencyKey, Accept;
    var address := AddressOf(w, request.renter);
    if Obstacle(w.local, address, request, provider).None? {
      ObstacleNeedsAddress(w.local, address, request, provider);
      var key, recipient := IdempotencyKey(request), Normalized(address.value);
      if FindAttempt(w.local.attempts, key).None? && Addressable(recipient) {
        var email := Email(recipient, key, ContentOf(request.artifact));
        AcceptOnce(w.sent, email, status);
        var (after, receipt) := Accept(w.sent, email, status);
        RequestKeyed(request);
        RollbackKeeps(w, after);
        CommitKeeps(w.(sent := after), Attempt(key, recipient, request.renter), receipt);
      }
    }
  }

  lemma TakeKeeps(w: World, step: Step)
    requires Sound(w)
    ensures Sound(Take(w, step))
  {
    match step
    case Attempted(request, provider, status, committed) => DispatchKeeps(w, request, provider, status, committed);
    case OtherEvent(a, status, reference) =>
      if a < |w.local.attempts| { OtherEventKeeps(w, a, status, reference); }
    case ChangeAddress(renter, address) => LocalKept(w, Take(w, step));
    case DropSuppression(recipient) => LocalKept(w, Take(w, step));
  }

  lemma LocalKept(w: World, after: World)
    requires Sound(w) && after.sent == w.sent && after.local.attempts == w.local.attempts
        && after.local.events == w.local.events
    ensures Sound(after)
  {
    forall a: nat | a < |w.local.attempts| ensures AttemptBacked(after, a) {
      assert AttemptBacked(w, a);
    }
  }

  lemma {:induction false} RunKeeps(steps: seq<Step>)
    ensures Sound(Run(START, steps))
  {
    hide Sound, Take;
    if steps == [] {
      StartSound();
    } else {
      RunKeeps(steps[..|steps| - 1]);
      TakeKeeps(Run(START, steps[..|steps| - 1]), steps[|steps| - 1]);
    }
  }

  lemma StartSound()
    ensures Sound(START)
  {
  }

  /** The event that the dispatch of its attempt wrote: no earlier one is of that attempt. */
  ghost predicate DispatchEvent(events: seq<StatusEvent>, k: nat)
  {
    k < |events| && forall j | 0 <= j < k :: events[j].attempt != events[k].attempt
  }

  lemma {:induction false} DispatchReference(events: seq<StatusEvent>, k: nat)
    requires DispatchEvent(events, k)
    ensures ReferenceOf(events, events[k].attempt) == events[k].reference
  {
    if k > 0 {
      DispatchReference(events[1..], k - 1);
    }
  }

  /**
   * Over every run of dispatches, crashes, other events and address changes: the provider holds at
   * most one message per key, no two committed attempts have one key, and each has a status event
   * of its dispatch, which carries the id of exactly that message.
   */
  lemma DeliveredAtMostOnce(steps: seq<Step>)
    ensures var w := Run(START, steps);
            && (forall i, j | 0 <= i < |w.sent| && 0 <= j < |w.sent| ::
                  w.sent[i].email.key == w.sent[j].email.key != "" ==> i == j)
            && (forall a, b | 0 <= a < b < |w.local.attempts| :: w.local.attempts[a].key != w.local.attempts[b].key)
            && (forall a: nat | a < |w.local.attempts| :: HasEvent(w.local.events, a))
            && (forall k: nat | DispatchEvent(w.local.events, k) :: NamesItsMessage(w, k))
  {
    hide Run, DispatchEvent, AttemptBacked;
    var w := Run(START, steps);
    RunKeeps(steps);
    forall a: nat | a < |w.local.attempts| ensures HasEvent(w.local.events, a) {
      BackedHasEvent(w, a);
    }
    forall k: nat | DispatchEvent(w.local.events, k) ensures NamesItsMessage(w, k) {
      DispatchedNamesItsMessage(w, k);
    }
  }

  lemma BackedHasEvent(w: World, a: nat)
    requires a < |w.local.attempts| && AttemptBacked(w, a)
    ensures HasEvent(w.local.events, a)
  {
  }

  /** The event carries the id of its attempt's message. */
  ghost predicate NamesItsMessage(w: World, k: nat)
  {
    && k < |w.local.events|
    && var event := w.local.events[k];
       && event.attempt < |w.local.attempts| && 1 <= event.reference <= |w.sent|
       && w.sent[event.reference - 1].email.key == w.local.attempts[event.attempt].key != ""
  }

  lemma DispatchedNamesItsMessage(w: World, k: nat)
    requires Sound(w) && DispatchEvent(w.local.events, k)
    ensures NamesItsMessage(w, k)
  {
    hide ReferenceOf, OncePerKey;
    DispatchReference(w.local.events, k);
    assert AttemptBacked(w, w.local.events[k].attempt);
  }

  // ---- Nothing more is sent ------------------------------------------------------------------------------

  /** Local evidence is append-only, and the provider never takes a message back. */
  ghost predicate Grown(before: World, after: World)
  {
    && before.local.attempts <= after.local.attempts && before.local.events <= after.local.events
    && before.sent <= after.sent
  }

  lemma TakeGrows(w: World, step: Step)
    ensures Grown(w, Take(w, step))
  {
  }

  lemma {:induction false} RunGrows(w: World, steps: seq<Step>)
    ensures Grown(w, Run(w, steps))
  {
    hide Take;
    if steps != [] {
      RunGrows(w, steps[..|steps| - 1]);
      TakeGrows(Run(w, steps[..|steps| - 1]), steps[|steps| - 1]);
    }
  }

  lemma NegativeStays(before: World, after: World, recipient: string)
    requires Grown(before, after) && NegativeHistory(before.local, recipient)
    ensures NegativeHistory(after.local, recipient)
  {
    var k :| 0 <= k < |before.local.events| && Negative(before.local.events[k].status)
             && before.local.events[k].attempt < |before.local.attempts|
             && before.local.attempts[before.local.events[k].attempt].recipient == recipient;
    assert after.local.events[k] == before.local.events[k];
    assert after.local.attempts[after.local.events[k].attempt] == before.local.attempts[after.local.events[k].attempt];
  }

  lemma TakeSpares(w: World, step: Step, recipient: string)
    requires NegativeHistory(w.local, recipient) || Suppressed(w.local, recipient)
    ensures var sent := Take(w, step).sent;
            sent == w.sent || (|sent| == |w.sent| + 1 && w.sent <= sent && sent[|w.sent|].email.to != recipient)
  {
    hide NegativeHistory, Suppressed, FindAttempt, IdempotencyKey, FindKey, Record, Addressable, Normalized;
  }

  /**
   * Once a bounce or complaint of an attempt is committed, the provider never again accepts a
   * message to the address that the attempt names, whatever follows: later attempts, crashes, or a
   * dropped suppression row.
   */
  lemma {:induction false} NothingAfterComplaint(w: World, steps: seq<Step>, recipient: string)
    requires NegativeHistory(w.local, recipient)
    ensures |w.sent| <= |Run(w, steps).sent|
    ensures forall i | |w.sent| <= i < |Run(w, steps).sent| :: Run(w, steps).sent[i].email.to != recipient
  {
    hide Take, NegativeHistory;
    if steps != [] {
      var n := |steps| - 1;
      var before := Run(w, steps[..n]);
      NothingAfterComplaint(w, steps[..n], recipient);
      RunGrows(w, steps[..n]);
      NegativeStays(w, before, recipient);
      TakeSpares(before, steps[n], recipient);
      TakeGrows(before, steps[n]);
      var after := Run(w, steps);
      forall i | |w.sent| <= i < |after.sent| ensures after.sent[i].email.to != recipient {
        if i < |before.sent| {
          assert after.sent[i] == before.sent[i];
        }
      }
    }
  }

  /** A key with a committed attempt is never handed to the provider again. */
  lemma CommittedNeverResent(w: World, a: nat, between: seq<Step>, request: Request, provider: Provider,
                             status: DeliveryStatus)
    requires a < |w.local.attempts| && w.local.attempts[a].key == IdempotencyKey(request)
    ensures var later := Run(w, between);
            var (local, sent, outcome) :=
              Dispatch(later.local, later.sent, AddressOf(later, request.renter), request, provider, status);
            local == later.local && sent == later.sent && (outcome == AlreadyProcessed || outcome.Blocked?)
  {
    hide Obstacle, Run, IdempotencyKey;
    var later := Run(w, between);
    RunGrows(w, between);
    assert later.local.attempts[a].key == IdempotencyKey(request);
    FindAttemptMeans(later.local.attempts, IdempotencyKey(request));
  }

  lemma SuppressionStays(w: World, step: Step, recipient: string)
    requires Suppressed(w.local, recipient) && step != DropSuppression(recipient)
    ensures Suppressed(Take(w, step).local, recipient)
  {
    hide NegativeHistory, FindAttempt, IdempotencyKey, FindKey, Addressable, Normalized;
  }

  /**
   * While nobody drops its suppression by hand, the provider never accepts a message to a suppressed
   * address, whatever follows.
   */
  lemma {:induction false} NothingWhileSuppressed(w: World, steps: seq<Step>, recipient: string)
    requires Suppressed(w.local, recipient)
    requires forall i | 0 <= i < |steps| :: steps[i] != DropSuppression(recipient)
    ensures |w.sent| <= |Run(w, steps).sent| && Suppressed(Run(w, steps).local, recipient)
    ensures forall i | |w.sent| <= i < |Run(w, steps).sent| :: Run(w, steps).sent[i].email.to != recipient
  {
    hide Take, NegativeHistory, Suppressed;
    if steps != [] {
      var n := |steps| - 1;
      var before := Run(w, steps[..n]);
      NothingWhileSuppressed(w, steps[..n], recipient);
      SuppressionStays(before, steps[n], recipient);
      TakeSpares(before, steps[n], recipient);
      var after := Run(w, steps);
      forall i | |w.sent| <= i < |after.sent| ensures after.sent[i].email.to != recipient {
        if i < |before.sent| {
          assert after.sent[i] == before.sent[i];
        }
      }
    }
  }

  /** The suppressions are exactly the addresses with a bounce or complaint in the history. */
  ghost predicate SuppressionsExact(local: Local)
  {
    && (forall k | 0 <= k < |local.events| :: local.events[k].attempt < |local.attempts|)
    && forall recipient :: Suppressed(local, recipient) <==> NegativeHistory(local, recipient)
  }

  lemma RecordKeepsExact(local: Local, event: StatusEvent)
    requires SuppressionsExact(local) && event.attempt < |local.attempts|
    ensures SuppressionsExact(Record(local, event))
  {
    var after := Record(local, event);
    forall recipient ensures Suppressed(after, recipient) <==> NegativeHistory(after, recipient) {
      assert Suppressed(local, recipient) <==> NegativeHistory(local, recipient);
      NegativeRecorded(local, event, recipient);
    }
  }

  lemma NegativeRecorded(local: Local, event: StatusEvent, recipient: string)
    requires event.attempt < |local.attempts|
    ensures NegativeHistory(Record(local, event), recipient)
       <==> || NegativeHistory(local, recipient)
            || (Negative(event.status) && local.attempts[event.attempt].recipient == recipient)
  {
    var after := Record(local, event);
    if NegativeHistory(local, recipient) {
      var k :| 0 <= k < |local.events| && Negative(local.events[k].status)
               && local.events[k].attempt < |local.attempts|
               && local.attempts[local.events[k].attempt].recipient == recipient;
      assert after.events[k] == local.events[k];
    }
    assert after.events[|local.events|] == event;
  }

  lemma ClaimKeepsExact(local: Local, attempt: Attempt)
    requires SuppressionsExact(local)
    ensures SuppressionsExact(local.(attempts := local.attempts + [attempt]))
  {
    var after := local.(attempts := local.attempts + [attempt]);
    forall recipient ensures NegativeHistory(after, recipient) <==> NegativeHistory(local, recipient) {
      if k :| 0 <= k < |after.events| && Negative(after.events[k].status) && after.events[k].attempt < |after.attempts|
              && after.attempts[after.events[k].attempt].recipient == recipient {
        assert local.attempts[local.events[k].attempt].recipient == recipient;
      }
      if NegativeHistory(local, recipient) {
        NegativeStays(World(local, [], map[]), World(after, [], map[]), recipient);
      }
    }
  }

  lemma TakeKeepsExact(w: World, step: Step)
    requires SuppressionsExact(w.local) && !step.DropSuppression?
    ensures SuppressionsExact(Take(w, step).local)
  {
    hide SuppressionsExact, Record, Obstacle, FindAttempt, Normalized, IdempotencyKey, Addressable, Accept, ReferenceOf;
    match step
    case Attempted(request, provider, status, committed) =>
      var address := AddressOf(w, request.renter);
      if Obstacle(w.local, address, request, provider).None? {
        ObstacleNeedsAddress(w.local, address, request, provider);
        var attempt := Attempt(IdempotencyKey(request), Normalized(address.value), request.renter);
        var (_, receipt) := Accept(w.sent, Email(attempt.recipient, attempt.key, ContentOf(request.artifact)), status);
        ClaimKeepsExact(w.local, attempt);
        RecordKeepsExact(w.local.(attempts := w.local.attempts + [attempt]),
                         StatusEvent(|w.local.attempts|, receipt.status, receipt.messageId));
      }
    case OtherEvent(a, status, reference) =>
      if a < |w.local.attempts| { RecordKeepsExact(w.local, StatusEvent(a, status, reference)); }
    case ChangeAddress(renter, address) =>
  }

  /** Unless a suppression is dropped by hand, the trigger's projection is the history. */
  lemma {:induction false} SuppressionsAreHistory(steps: seq<Step>)
    requires forall i | 0 <= i < |steps| :: !steps[i].DropSuppression?
    ensures SuppressionsExact(Run(START, steps).local)
  {
    hide SuppressionsExact, Take;
    if steps == [] {
      StartExact();
    } else {
      SuppressionsAreHistory(steps[..|steps| - 1]);
      TakeKeepsExact(Run(START, steps[..|steps| - 1]), steps[|steps| - 1]);
    }
  }

  lemma StartExact()
    ensures SuppressionsExact(START.local)
  {
  }

  // ---- Who received it --------------------------------------------------------------------------------------

  /** Step `j` of the run hands the key over to the provider. */
  ghost predicate HandsOver(steps: seq<Step>, key: string, j: nat)
  {
    && j < |steps| && steps[j].Attempted? && IdempotencyKey(steps[j].request) == key
    && IsHanded(Run(START, steps[..j]), steps[j].request, steps[j].provider, steps[j].status)
  }

  ghost predicate IsHanded(w: World, request: Request, provider: Provider, status: DeliveryStatus)
  {
    Dispatch(w.local, w.sent, AddressOf(w, request.renter), request, provider, status).2.Handed?
  }

  ghost predicate FirstHandsOver(steps: seq<Step>, key: string, j: nat)
  {
    HandsOver(steps, key, j) && forall k: nat | k < j :: !HandsOver(steps, key, k)
  }

  /** And commits the attempt. */
  ghost predicate Commits(steps: seq<Step>, key: string, j: nat)
  {
    HandsOver(steps, key, j) && steps[j].committed
  }

  /** The renter's normalized address when step `j` is taken. */
  ghost function AddressAt(steps: seq<Step>, j: nat): string
    requires j < |steps| && steps[j].Attempted?
  {
    NormalizedOf(AddressOf(Run(START, steps[..j]), steps[j].request.renter))
  }

  ghost function NormalizedOf(address: Option<string>): string
  {
    if address.Some? then Normalized(address.value) else ""
  }

  /** What handing over does: a new key is accepted with the present address; a commit claims it. */
  lemma HandingOver(w: World, request: Request, provider: Provider, status: DeliveryStatus, committed: bool)
    requires Sound(w) && IsHanded(w, request, provider, status)
    ensures var after, key := Take(w, Attempted(request, provider, status, committed)), IdempotencyKey(request);
            var to := NormalizedOf(AddressOf(w, request.renter));
            && (FindKey(w.sent, key).None? ==>
                  && |after.sent| == |w.sent| + 1 && after.sent[|w.sent|].email.key == key
                  && after.sent[|w.sent|].email.to == to
                  && request.artifact == Frozen(after.sent[|w.sent|].email.content))
            && (committed ==> after.local.attempts == w.local.attempts + [Attempt(key, to, request.renter)])
            && FindAttempt(w.local.attempts, key).None?
  {
    hide Obstacle, Normalized, FindAttempt, Addressable, AttemptBacked, IdempotencyKey, OncePerKey, FindKey;
    var address := AddressOf(w, request.renter);
    ObstacleNeedsAddress(w.local, address, request, provider);
    RequestKeyed(request);
  }

  /** Without handing over, or with another key, no message of the key is added. */
  lemma NothingAdded(w: World, step: Step, key: string)
    requires step.Attempted? && IdempotencyKey(step.request) == key ==>
               !IsHanded(w, step.request, step.provider, step.status)
    ensures var after := Take(w, step).sent;
            after == w.sent || (|after| == |w.sent| + 1 && w.sent <= after && after[|w.sent|].email.key != key)
  {
    hide Obstacle, Normalized, FindAttempt, Addressable, IdempotencyKey, FindKey, Record;
  }

  lemma {:induction false} RunPrefix(steps: seq<Step>, i: nat)
    requires i <= |steps|
    ensures Grown(Run(START, steps[..i]), Run(START, steps))
    decreases |steps|
  {
    hide Take;
    var n := |steps| - 1;
    if i <= n {
      assert steps[..n][..i] == steps[..i];
      RunPrefix(steps[..n], i);
      TakeGrows(Run(START, steps[..n]), steps[n]);
    } else {
      assert steps[..i] == steps;
    }
  }

  lemma HandsOverPrefix(steps: seq<Step>, n: nat, key: string, j: nat)
    requires j < n <= |steps|
    ensures HandsOver(steps[..n], key, j) <==> HandsOver(steps, key, j)
  {
    assert steps[..n][..j] == steps[..j];
  }

  /** A key that was never handed over has no message. */
  lemma {:induction false} NoMessageYet(steps: seq<Step>, key: string)
    requires forall j: nat | j < |steps| :: !HandsOver(steps, key, j)
    ensures FindKey(Run(START, steps).sent, key).None?
  {
    hide Take, IsHanded, IdempotencyKey;
    if steps != [] {
      var n := |steps| - 1;
      forall j: nat | j < n ensures !HandsOver(steps[..n], key, j) {
        HandsOverPrefix(steps, n, key, j);
      }
      NoMessageYet(steps[..n], key);
      assert !HandsOver(steps, key, n);
      var w := Run(START, steps[..n]);
      NothingAdded(w, steps[n], key);
      NoneAdded(w.sent, Run(START, steps).sent, key);
    }
  }

  lemma NoneAdded(before: Outbox, after: Outbox, key: string)
    requires FindKey(before, key).None?
    requires after == before || (|after| == |before| + 1 && before <= after && after[|before|].email.key != key)
    ensures FindKey(after, key).None?
  {
    hide FindKey;
    FindKeyMeans(before, key);
    FindKeyMeans(after, key);
  }

  /** The one message of a key went to the address of the step that first handed it over. */
  lemma MessageAddress(steps: seq<Step>, key: string, i: nat)
    requires FirstHandsOver(steps, key, i)
    ensures exists m :: 0 <= m < |Run(START, steps).sent| && Run(START, steps).sent[m].email.key == key
                        && Run(START, steps).sent[m].email.to == AddressAt(steps, i)
                        && steps[i].request.artifact == Frozen(Run(START, steps).sent[m].email.content)
  {
    hide Take, IsHanded, IdempotencyKey, Run, Sound;
    forall j: nat | j < i ensures !HandsOver(steps[..i], key, j) {
      HandsOverPrefix(steps, i, key, j);
    }
    NoMessageYet(steps[..i], key);
    RunKeeps(steps[..i]);
    RunNext(START, steps, i);
    var w, step := Run(START, steps[..i]), steps[i];
    HandingOver(w, step.request, step.provider, step.status, step.committed);
    RunPrefix(steps, i + 1);
    assert Run(START, steps).sent[|w.sent|] == Run(START, steps[..i + 1]).sent[|w.sent|];
  }

  /**
   * Only a released, intact document leaves: in every run, each message was first handed over by a
   * request for a frozen artifact, and carries its content to the renter's address of that moment.
   */
  lemma MessagesWereReleased(steps: seq<Step>, m: nat)
    requires m < |Run(START, steps).sent|
    ensures var email := Run(START, steps).sent[m].email;
            exists i: nat :: FirstHandsOver(steps, email.key, i) && steps[i].request.artifact == Frozen(email.content)
                             && email.to == AddressAt(steps, i)
  {
    hide Run, AddressAt, IsHanded, IdempotencyKey;
    var w := Run(START, steps);
    var key := w.sent[m].email.key;
    RunKeeps(steps);
    MessagesKeyed(steps, m);
    if forall j: nat | j < |steps| :: !HandsOver(steps, key, j) {
      NoMessageYet(steps, key);
      FindKeyMeans(w.sent, key);
    }
    var j: nat :| j < |steps| && HandsOver(steps, key, j);
    var i := FirstOf(steps, key, j);
    MessageAddress(steps, key, i);
    var k :| 0 <= k < |w.sent| && w.sent[k].email.key == key && w.sent[k].email.to == AddressAt(steps, i)
             && steps[i].request.artifact == Frozen(w.sent[k].email.content);
    assert k == m by { OnePerKey(w.sent, k, m); }
  }

  lemma OnePerKey(sent: Outbox, k: nat, m: nat)
    requires OncePerKey(sent) && k < |sent| && m < |sent| && sent[k].email.key == sent[m].email.key != ""
    ensures k == m
  {
  }

  /** Every message has a key. */
  lemma {:induction false} MessagesKeyed(steps: seq<Step>, m: nat)
    requires m < |Run(START, steps).sent|
    ensures Run(START, steps).sent[m].email.key != ""
  {
    hide Take;
    if steps != [] {
      var n := |steps| - 1;
      var w := Run(START, steps[..n]);
      StepKeyed(w, steps[n], m);
      if m < |w.sent| {
        MessagesKeyed(steps[..n], m);
      }
    }
  }

  lemma StepKeyed(w: World, step: Step, m: nat)
    requires m < |Take(w, step).sent|
    ensures m < |w.sent| ==> Take(w, step).sent[m] == w.sent[m]
    ensures m >= |w.sent| ==> Take(w, step).sent[m].email.key != ""
  {
    hide Obstacle, Normalized, FindAttempt, Addressable, IdempotencyKey, FindKey, Record;
    if step.Attempted? {
      RequestKeyed(step.request);
    }
  }

  /** A committed attempt names the address of the step that committed it. */
  lemma AttemptAddress(steps: seq<Step>, key: string, c: nat)
    requires Commits(steps, key, c)
    ensures exists a: nat :: a < |Run(START, steps).local.attempts| && Run(START, steps).local.attempts[a].key == key
                        && Run(START, steps).local.attempts[a].recipient == AddressAt(steps, c)
  {
    hide Take, IsHanded, IdempotencyKey, Run, Sound;
    RunKeeps(steps[..c]);
    RunNext(START, steps, c);
    var w, step := Run(START, steps[..c]), steps[c];
    HandingOver(w, step.request, step.provider, step.status, step.committed);
    RunPrefix(steps, c + 1);
    var n := |w.local.attempts|;
    assert Run(START, steps).local.attempts[n] == Run(START, steps[..c + 1]).local.attempts[n];
  }

  /** Every attempt was committed by some step, and its key handed over first by that or an earlier one. */
  lemma {:induction false} AttemptHistory(steps: seq<Step>, a: nat)
    requires a < |Run(START, steps).local.attempts|
    ensures exists i: nat, c: nat :: i <= c < |steps|
                                     && FirstHandsOver(steps, Run(START, steps).local.attempts[a].key, i)
                                     && Commits(steps, Run(START, steps).local.attempts[a].key, c)
  {
    hide Take, IsHanded, IdempotencyKey;
    if steps != [] {
      var n := |steps| - 1;
      var w, key := Run(START, steps[..n]), Run(START, steps).local.attempts[a].key;
      TakeGrows(w, steps[n]);
      if a < |w.local.attempts| {
        AttemptHistory(steps[..n], a);
        assert w.local.attempts[a].key == key;
        var i: nat, c: nat :| i <= c < n && FirstHandsOver(steps[..n], key, i) && Commits(steps[..n], key, c);
        forall j: nat | j < n ensures HandsOver(steps[..n], key, j) <==> HandsOver(steps, key, j) {
          HandsOverPrefix(steps, n, key, j);
        }
        assert FirstHandsOver(steps, key, i) && Commits(steps, key, c);
      } else {
        NewAttempt(w, steps[n], a);
        assert Commits(steps, key, n);
        var i := FirstOf(steps, key, n);
        assert FirstHandsOver(steps, key, i) && Commits(steps, key, n);
      }
    }
  }

  lemma NewAttempt(w: World, step: Step, a: nat)
    requires |w.local.attempts| <= a < |Take(w, step).local.attempts|
    ensures step.Attempted? && step.committed && IsHanded(w, step.request, step.provider, step.status)
    ensures Take(w, step).local.attempts[a].key == IdempotencyKey(step.request)
  {
    hide Obstacle, Normalized, FindAttempt, Addressable, IdempotencyKey, FindKey;
  }

  lemma {:induction false} FirstOf(steps: seq<Step>, key: string, j: nat) returns (i: nat)
    requires HandsOver(steps, key, j)
    ensures i <= j && FirstHandsOver(steps, key, i)
    decreases j
  {
    if k: nat :| k < j && HandsOver(steps, key, k) {
      i := FirstOf(steps, key, k);
    } else {
      i := j;
    }
  }

  /**
   * In every run, a committed attempt names the recipient of its message exactly when the renter's
   * address at the step that first handed the key over is the one at the step that committed.
   * After a crash the retry is answered with the old message, whatever the address is by then.
   */
  lemma RecipientMatchesIff(steps: seq<Step>, a: nat, i: nat, c: nat)
    requires a < |Run(START, steps).local.attempts|
    requires FirstHandsOver(steps, Run(START, steps).local.attempts[a].key, i)
    requires Commits(steps, Run(START, steps).local.attempts[a].key, c)
    ensures var w := Run(START, steps);
            && 1 <= ReferenceOf(w.local.events, a) <= |w.sent|
            && w.sent[ReferenceOf(w.local.events, a) - 1].email.key == w.local.attempts[a].key
            && (w.sent[ReferenceOf(w.local.events, a) - 1].email.to == w.local.attempts[a].recipient
                <==> AddressAt(steps, i) == AddressAt(steps, c))
  {
    hide Run, FirstHandsOver, Commits, AddressAt;
    var w := Run(START, steps);
    var key := w.local.attempts[a].key;
    RunKeeps(steps);
    assert AttemptBacked(w, a);
    Starts(steps, key, i, c);
    MessageAddress(steps, key, i);
    AttemptAddress(steps, key, c);
    var m :| 0 <= m < |w.sent| && w.sent[m].email.key == key && w.sent[m].email.to == AddressAt(steps, i);
    var b: nat :| b < |w.local.attempts| && w.local.attempts[b].key == key
                  && w.local.attempts[b].recipient == AddressAt(steps, c);
    assert a == b;
    assert m == ReferenceOf(w.local.events, a) - 1;
  }

  lemma Starts(steps: seq<Step>, key: string, i: nat, c: nat)
    requires FirstHandsOver(steps, key, i) && Commits(steps, key, c)
    ensures i < |steps| && steps[i].Attempted? && c < |steps| && steps[c].Attempted?
  {
  }

  /** So it does whenever the renter's address is left alone between those two steps. */
  lemma RecipientMatchesUnchanged(steps: seq<Step>, a: nat, i: nat, c: nat)
    requires a < |Run(START, steps).local.attempts| && i <= c
    requires FirstHandsOver(steps, Run(START, steps).local.attempts[a].key, i)
    requires Commits(steps, Run(START, steps).local.attempts[a].key, c)
    requires steps[i].request.renter == steps[c].request.renter
    requires forall j | i <= j < c && steps[j].ChangeAddress? :: steps[j].renter != steps[c].request.renter
    ensures var w := Run(START, steps);
            && 1 <= ReferenceOf(w.local.events, a) <= |w.sent|
            && w.sent[ReferenceOf(w.local.events, a) - 1].email.to == w.local.attempts[a].recipient
  {
    hide Run, FirstHandsOver, Commits;
    Starts(steps, Run(START, steps).local.attempts[a].key, i, c);
    AddressStays(steps, steps[c].request.renter, i, c);
    RecipientMatchesIff(steps, a, i, c);
  }

  lemma {:induction false} AddressStays(steps: seq<Step>, renter: string, i: nat, c: nat)
    requires i <= c <= |steps|
    requires forall j | i <= j < c && steps[j].ChangeAddress? :: steps[j].renter != renter
    ensures AddressOf(Run(START, steps[..i]), renter) == AddressOf(Run(START, steps[..c]), renter)
    decreases c
  {
    hide Run, Dispatch, Record;
    if i < c {
      AddressStays(steps, renter, i, c - 1);
      RunNext(START, steps, c - 1);
    }
  }

  lemma ObstacleNeedsAddress(local: Local, address: Option<string>, request: Request, provider: Provider)
    requires Obstacle(local, address, request, provider).None?
    ensures address.Some? && request.artifact.Frozen?
  {
  }

  /** A request that nothing but the address or the history can hold up. */
  ghost predicate Sendable(request: Request)
  {
    request.artifact.Frozen? && EndsWith(Normalized(request.sender), "@lokara.de")
  }

  /** A plain address: already normalized, and acceptable to the message and its row. */
  ghost predicate Plain(address: string)
  {
    address != "" && Strip(address) == address && Normalized(address) == address && Addressable(address)
  }

  /**
   * The failing family: the first attempt reaches the provider and crashes, the renter moves to
   * another address, and the retry commits an attempt to an address that received nothing.
   */
  lemma CrashThenNewAddress(request: Request, earlier: string, later: string, status: DeliveryStatus)
    requires Sendable(request) && Plain(earlier) && Plain(later) && earlier != later
    ensures var w := Run(START, CrashedAndMoved(request, earlier, later, status));
            && |w.sent| == 1 && w.sent[0].email.to == earlier && w.sent[0].receipt.status == status
            && w.local.attempts == [Attempt(IdempotencyKey(request), later, request.renter)]
            && w.local.events == [StatusEvent(0, status, 1)]
  {
    hide Strip, Normalized, IdempotencyKey, EndsWith, Lower, Dispatch, Plain;
    RequestKeyed(request);
    var steps := CrashedAndMoved(request, earlier, later, status);
    var first := Take(START, steps[0]);
    var email := Email(earlier, IdempotencyKey(request), request.artifact.content);
    FirstSend(first, request, earlier, status);
    var second := World(first.local, [SentEmail(email, Receipt(1, status))], first.addresses);
    assert Take(first, steps[1]) == second;
    var third := Take(second, steps[2]);
    Replayed(third, request, later, email, status);
    RunNext(START, steps, 0);
    RunNext(START, steps, 1);
    RunNext(START, steps, 2);
    RunNext(START, steps, 3);
    assert steps[..0] == [] && steps[..4] == steps;
  }

  ghost function CrashedAndMoved(request: Request, earlier: string, later: string, status: DeliveryStatus): seq<Step>
  {
    [ChangeAddress(request.renter, earlier), Attempted(request, Idempotent, status, false),
     ChangeAddress(request.renter, later), Attempted(request, Idempotent, Queued, true)]
  }

  lemma RunNext(w: World, steps: seq<Step>, i: nat)
    requires i < |steps|
    ensures Run(w, steps[..i + 1]) == Take(Run(w, steps[..i]), steps[i])
  {
    assert steps[..i + 1][..i] == steps[..i];
  }

  lemma FirstSend(w: World, request: Request, address: string, status: DeliveryStatus)
    requires Sendable(request) && Plain(address) && w.local == START.local && w.sent == []
    requires request.renter in w.addresses && w.addresses[request.renter] == address
    ensures Take(w, Attempted(request, Idempotent, status, false))
         == w.(sent := [SentEmail(Email(address, IdempotencyKey(request), request.artifact.content),
                                  Receipt(1, status))])
  {
    hide Strip, Normalized, IdempotencyKey, EndsWith, Lower;
  }

  lemma Replayed(w: World, request: Request, address: string, email: Email, status: DeliveryStatus)
    requires Sendable(request) && Plain(address) && w.local == START.local
    requires request.renter in w.addresses && w.addresses[request.renter] == address
    requires email.key == IdempotencyKey(request) != "" && w.sent == [SentEmail(email, Receipt(1, status))]
    ensures var after := Take(w, Attempted(request, Idempotent, Queued, true));
            && after.sent == w.sent
            && after.local.attempts == [Attempt(IdempotencyKey(request), address, request.renter)]
            && after.local.events == [StatusEvent(0, status, 1)]
  {
    hide Strip, Normalized, IdempotencyKey, EndsWith, Lower;
  }

  // ---- Whom a bounce protects -------------------------------------------------------------------------------

  /** In this continuation the provider accepts no message to the address. */
  ghost predicate SparedBy(w: World, steps: seq<Step>, recipient: string)
  {
    forall i | |w.sent| <= i < |Run(w, steps).sent| :: Run(w, steps).sent[i].email.to != recipient
  }

  ghost predicate SparedForever(w: World, recipient: string)
  {
    forall steps :: SparedBy(w, steps, recipient)
  }

  /** A new key is sent to the renter's address, unless the history or the suppressions forbid it. */
  lemma FreshSend(w: World, request: Request, address: string)
    requires Sendable(request) && Strip(address) != "" && Addressable(Normalized(address))
    requires request.renter in w.addresses && w.addresses[request.renter] == address
    requires !NegativeHistory(w.local, Normalized(address)) && !Suppressed(w.local, Normalized(address))
    requires FindAttempt(w.local.attempts, IdempotencyKey(request)).None?
    requires FindKey(w.sent, IdempotencyKey(request)).None?
    ensures var sent := Take(w, Attempted(request, Idempotent, Queued, true)).sent;
            |sent| == |w.sent| + 1 && sent[|w.sent|].email.to == Normalized(address)
  {
    hide Strip, Normalized, IdempotencyKey, EndsWith, NegativeHistory, Suppressed, FindAttempt, FindKey, Addressable;
  }

  ghost function LongestKey(w: World): nat
  {
    MaxLength(seq(|w.sent|, i requires 0 <= i < |w.sent| => w.sent[i].email.key)
              + seq(|w.local.attempts|, i requires 0 <= i < |w.local.attempts| => w.local.attempts[i].key))
  }

  ghost function MaxLength(keys: seq<string>): (n: nat)
    ensures forall i | 0 <= i < |keys| :: |keys[i]| <= n
  {
    if keys == [] then 0
    else
      var rest := MaxLength(keys[..|keys| - 1]);
      assert forall i | 0 <= i < |keys| - 1 :: keys[i] == keys[..|keys| - 1][i];
      if |keys[|keys| - 1]| > rest then |keys[|keys| - 1]| else rest
  }

  ghost function NewRequest(w: World): Request
  {
    Request(Uvi, seq(LongestKey(w) + 1, _ => 'x'), "", Frozen(""), "@lokara.de")
  }

  lemma NewRequestIsNew(w: World)
    ensures Sendable(NewRequest(w))
    ensures FindAttempt(w.local.attempts, IdempotencyKey(NewRequest(w))).None?
    ensures FindKey(w.sent, IdempotencyKey(NewRequest(w))).None?
  {
    hide FindAttempt, FindKey, Sendable;
    var key := IdempotencyKey(NewRequest(w));
    assert |key| > LongestKey(w);
    var sent := seq(|w.sent|, i requires 0 <= i < |w.sent| => w.sent[i].email.key);
    var claimed := seq(|w.local.attempts|, i requires 0 <= i < |w.local.attempts| => w.local.attempts[i].key);
    forall i | 0 <= i < |w.sent| ensures w.sent[i].email.key != key {
      assert (sent + claimed)[i] == w.sent[i].email.key;
    }
    forall a | 0 <= a < |w.local.attempts| ensures w.local.attempts[a].key != key {
      assert (sent + claimed)[|w.sent| + a] == w.local.attempts[a].key;
    }
    FindAttemptMeans(w.local.attempts, key);
    FindKeyMeans(w.sent, key);
    LokaraSends(NewRequest(w));
  }

  lemma LokaraSends(request: Request)
    requires request.artifact.Frozen? && request.sender == "@lokara.de"
    ensures Sendable(request)
  {
    assert Strip("@lokara.de") == "@lokara.de";
    assert Lower("@lokara.de") == "@lokara.de";
    assert "@lokara.de"[0..] == "@lokara.de";
  }

  /**
   * An address is spared for good exactly when the history holds a bounce or complaint of an attempt
   * that names it; the suppression row alone can be dropped, and then mail goes out again.
   */
  lemma SparedIffHistory(w: World, address: string)
    requires Strip(address) != "" && Addressable(Normalized(address))
    ensures SparedForever(w, Normalized(address)) <==> NegativeHistory(w.local, Normalized(address))
  {
    hide Run, NegativeHistory, Strip, Normalized, Addressable;
    var recipient := Normalized(address);
    if NegativeHistory(w.local, recipient) {
      forall steps ensures SparedBy(w, steps, recipient) {
        NothingAfterComplaint(w, steps, recipient);
      }
    } else {
      var steps := WriteAgain(w, address);
      assert !SparedBy(w, steps, recipient);
    }
  }

  lemma WriteAgain(w: World, address: string) returns (steps: seq<Step>)
    requires Strip(address) != "" && Addressable(Normalized(address)) && !NegativeHistory(w.local, Normalized(address))
    ensures !SparedBy(w, steps, Normalized(address))
  {
    hide Dispatch, Strip, Normalized, Addressable, IdempotencyKey, Sendable, NewRequest, FindAttempt, FindKey, Run;
    var request := NewRequest(w);
    NewRequestIsNew(w);
    steps := [DropSuppression(Normalized(address)), ChangeAddress(request.renter, address),
              Attempted(request, Idempotent, Queued, true)];
    var first := Take(w, steps[0]);
    var second := Take(first, steps[1]);
    FreshSend(second, request, address);
    RunNext(w, steps, 0);
    RunNext(w, steps, 1);
    RunNext(w, steps, 2);
    assert steps[..0] == [] && steps[..3] == steps;
    RunNothing(w);
    assert Run(w, steps).sent[|w.sent|].email.to == Normalized(address);
  }

  lemma RunNothing(w: World)
    ensures Run(w, []) == w
  {
  }

  /**
   * A bounce or complaint of an attempt spares the address of its message exactly when the attempt
   * names that address, or another attempt that does has one as well.
   */
  lemma BounceSparesIff(steps: seq<Step>, a: nat, i: nat, c: nat, k: nat)
    requires a < |Run(START, steps).local.attempts|
    requires FirstHandsOver(steps, Run(START, steps).local.attempts[a].key, i)
    requires Commits(steps, Run(START, steps).local.attempts[a].key, c)
    requires k < |Run(START, steps).local.events| && Run(START, steps).local.events[k].attempt == a
    requires Negative(Run(START, steps).local.events[k].status)
    ensures SparedForever(Run(START, steps), AddressAt(steps, c))
    ensures SparedForever(Run(START, steps), AddressAt(steps, i)) <==>
      AddressAt(steps, i) == AddressAt(steps, c) || NegativeHistory(Run(START, steps).local, AddressAt(steps, i))
  {
    hide Run, Strip, Normalized, Addressable, SparedForever, IdempotencyKey;
    var w := Run(START, steps);
    AttemptAddress(steps, w.local.attempts[a].key, c);
    RunKeeps(steps);
    assert NegativeHistory(w.local, AddressAt(steps, c));
    HandedAddress(steps, w.local.attempts[a].key, c);
    HandedAddress(steps, w.local.attempts[a].key, i);
    SparedIffHistory(w, AddressOf(Run(START, steps[..c]), steps[c].request.renter).value);
    SparedIffHistory(w, AddressOf(Run(START, steps[..i]), steps[i].request.renter).value);
  }

  lemma HandedAddress(steps: seq<Step>, key: string, j: nat)
    requires HandsOver(steps, key, j)
    ensures var address := AddressOf(Run(START, steps[..j]), steps[j].request.renter);
            address.Some? && Strip(address.value) != "" && Addressable(Normalized(address.value))
  {
    hide Run, Strip, Normalized, Addressable, IdempotencyKey;
  }

  /**
   * The same failing family with a message that bounced: the address it went to may be written to
   * again, and the address that received nothing never will be.
   */
  lemma BounceAtAnotherAddress(request: Request, earlier: string, later: string, status: DeliveryStatus)
    requires Sendable(request) && Plain(earlier) && Plain(later) && earlier != later && Negative(status)
    ensures var w := Run(START, CrashedAndMoved(request, earlier, later, status));
            && |w.sent| == 1 && w.sent[0].email.to == earlier && w.sent[0].receipt.status == status
            && !SparedForever(w, earlier) && SparedForever(w, later)
  {
    hide Run, Plain, SparedForever, IdempotencyKey;
    var w := Run(START, CrashedAndMoved(request, earlier, later, status));
    CrashThenNewAddress(request, earlier, later, status);
    OnlyNegative(w.local, earlier, later);
    PlainAddress(earlier);
    PlainAddress(later);
    SparedIffHistory(w, earlier);
    SparedIffHistory(w, later);
  }

  lemma OnlyNegative(local: Local, earlier: string, later: string)
    requires |local.attempts| == 1 && local.attempts[0].recipient == later != earlier
    requires |local.events| == 1 && local.events[0].attempt == 0 && Negative(local.events[0].status)
    ensures NegativeHistory(local, later) && !NegativeHistory(local, earlier)
  {
    assert local.events[0].attempt < |local.attempts|;
  }

  lemma PlainAddress(address: string)
    requires Plain(address)
    ensures Strip(address) != "" && Normalized(address) == address && Addressable(Normalized(address))
  {
  }

  // ---- The key ------------------------------------------------------------------------------------------------

  /** The last colon of such a text is the separator. */
  lemma Separator(a: string, x: string)
    requires ':' !in x
    ensures (a + ":" + x)[|a|] == ':'
    ensures forall i | |a| < i < |a + ":" + x| :: (a + ":" + x)[i] != ':'
  {
    forall i | |a| < i < |a + ":" + x| ensures (a + ":" + x)[i] != ':' {
      assert (a + ":" + x)[i] == x[i - |a| - 1];
    }
  }

  lemma LastColon(a: string, x: string, b: string, y: string)
    requires a + ":" + x == b + ":" + y && ':' !in x && ':' !in y
    ensures a == b && x == y
  {
    var s := a + ":" + x;
    Separator(a, x);
    Separator(b, y);
    assert |a| == |b|;
    assert a == s[..|a|] && b == s[..|b|];
    assert x == s[|a| + 1..] && y == s[|b| + 1..];
  }

  /** Different occurrences have different keys, as long as no renter id contains a colon. */
  lemma KeysAreInjective(r: Request, s: Request)
    requires ':' !in r.renter && ':' !in s.renter && IdempotencyKey(r) == IdempotencyKey(s)
    ensures r.kind == s.kind && r.occurrence == s.occurrence && r.renter == s.renter
  {
    var a := "delivery:" + KindName(r.kind) + ":" + r.occurrence;
    var b := "delivery:" + KindName(s.kind) + ":" + s.occurrence;
    LastColon(a, r.renter, b, s.renter);
    assert a[9] == KindName(r.kind)[0] && b[9] == KindName(s.kind)[0];
    assert KindName(r.kind) == KindName(s.kind);
    var n := |"delivery:" + KindName(r.kind) + ":"|;
    assert r.occurrence == a[n..] && s.occurrence == b[n..];
  }

  // ---- The job over its session -----------------------------------------------------------------------------------

  class Session {
    var attempts: seq<Attempt>
    var events: seq<StatusEvent>
    var suppressed: set<(string, DeliveryStatus)>

    function Stored(): Local
      reads this
    {
      Local(attempts, events, suppressed)
    }

    /** Adds a status event; the trigger adds the suppression of a negative one. */
    method AddStatusEvent(event: StatusEvent)
      modifies this`events, this`suppressed
      ensures Stored() == Record(old(Stored()), event)
    {
      if Negative(event.status) && event.attempt < |attempts| {
        suppressed := suppressed + {(attempts[event.attempt].recipient, event.status)};
      }
      events := events + [event];
    }

    /** One dispatch, up to the commit or the crash that follows it. */
    method DispatchRenterArtifact(gateway: StubEmailGateway?, address: Option<string>, request: Request)
      returns (outcome: Outcome)
      requires gateway != null ==> gateway.Valid()
      modifies this, gateway
      ensures gateway != null ==> gateway.Valid()
      ensures gateway == null ==>
        (Stored(), [], outcome) == Dispatch(old(Stored()), [], address, request, NoProvider, Queued)
      ensures gateway != null ==>
        (Stored(), gateway.sent, outcome)
          == Dispatch(old(Stored()), old(gateway.sent), address, request, Idempotent, Queued)
    {
      hide OncePerKey, Normalized, Strip, IdempotencyKey, EndsWith;
      hide FindAttempt, Suppressed, NegativeHistory, Addressable;
      if address.None? || Strip(address.value) == "" {
        return Blocked(MissingEmail);
      }
      var recipient := Normalized(address.value);
      if Suppressed(Stored(), recipient) || NegativeHistory(Stored(), recipient) {
        return Blocked(RecipientSuppressed);
      }
      if request.artifact == Missing {
        return Blocked(MissingArtifact);
      }
      if request.artifact == HashMismatch {
        return Blocked(HashDiffers);
      }
      if request.artifact == ProductionBlocked {
        return Blocked(NotReleased);
      }
      if !EndsWith(Normalized(request.sender), "@lokara.de") {
        return Blocked(InvalidSender);
      }
      if gateway == null {
        return Blocked(MissingProvider);
      }
      var key := IdempotencyKey(request);
      if FindAttempt(attempts, key).Some? {
        return AlreadyProcessed;
      }
      if !Addressable(recipient) {
        return Rejected;
      }
      attempts := attempts + [Attempt(key, recipient, request.renter)];
      var receipt := gateway.Send(Email(recipient, key, ContentOf(request.artifact)));
      AddStatusEvent(StatusEvent(|attempts| - 1, receipt.status, receipt.messageId));
      return Handed(receipt);
    }
  }
}
