/**
 * When a stored delivery document is released: intact, not blocked, and still the same as the immutable row
 * that it was made from. The hash function is a parameter.
 */
module Releases {
  import opened Rows
  import opened Delivery

  /** The immutable row behind a document: the archived statement, or the run with its own blockers. */
  datatype Source = Archive(content: string, hash: string) | UviRun(runBlockers: seq<string>)

  /** A stand-in without any binding is not checked for one. */
  datatype Binding = Unchecked | Unbound | Bound(source: Option<Source>)

  datatype Document = Document(content: string, hash: string, productionBlocked: bool, blockers: seq<string>,
                               binding: Binding)

  /** What the job finds, in the order in which it looks. */
  function LookedAt(kind: Kind, stored: Option<Document>, digest: string -> string): Artifact
  {
    if stored.None? then Missing
    else
      var d := stored.value;
      if digest(d.content) != d.hash then HashMismatch
      else if kind == AnnualStatement && (d.productionBlocked || d.blockers != []) then ProductionBlocked
      else match d.binding
        case Unchecked => Frozen(d.content)
        case Unbound => ProductionBlocked
        case Bound(source) =>
          if kind == AnnualStatement then
            if source.Some? && source.value.Archive? && source.value.content == d.content && source.value.hash == d.hash
            then Frozen(d.content)
            else ProductionBlocked
          else
            var ofRun := if source.Some? && source.value.UviRun? then source.value.runBlockers else [];
            if d.blockers + ofRun != [] then ProductionBlocked
            else if source.Some? && source.value.UviRun? then Frozen(d.content)
            else ProductionBlocked
  }

  /** The document is bound to a row that says the same, and nothing blocks it. */
  ghost predicate Releasable(kind: Kind, d: Document)
  {
    match kind
    case AnnualStatement =>
      && !d.productionBlocked && d.blockers == []
      && (d.binding == Unchecked || d.binding == Bound(Some(Archive(d.content, d.hash))))
    case Uvi =>
      d.binding == Unchecked || (d.blockers == [] && d.binding == Bound(Some(UviRun([]))))
  }

  /** A document leaves exactly when it is stored, intact and releasable; otherwise the job says which is not so. */
  lemma ReleasedIff(kind: Kind, stored: Option<Document>, digest: string -> string)
    ensures var found := LookedAt(kind, stored, digest);
            && (found == Missing <==> stored.None?)
            && (found == HashMismatch <==> stored.Some? && digest(stored.value.content) != stored.value.hash)
            && (found == ProductionBlocked <==>
                  stored.Some? && digest(stored.value.content) == stored.value.hash && !Releasable(kind, stored.value))
            && (found.Frozen? <==>
                  stored.Some? && digest(stored.value.content) == stored.value.hash && Releasable(kind, stored.value))
            && (found.Frozen? ==> found.content == stored.value.content)
  {
    if stored.Some? && stored.value.binding.Bound? && stored.value.binding.source.Some? {
      var d, source := stored.value, stored.value.binding.source.value;
      if source.UviRun? {
        assert d.blockers + source.runBlockers == [] <==> d.blockers == [] && source.runBlockers == [];
      }
    }
  }

  /** One dispatch of a stored document. */
  method DispatchDocument(session: Session, gateway: StubEmailGateway?, address: Option<string>, request: Request,
                          stored: Option<Document>, digest: string -> string)
    returns (outcome: Outcome)
    requires gateway != null ==> gateway.Valid()
    modifies session, gateway
    ensures gateway != null ==> gateway.Valid()
    ensures var seen := request.(artifact := LookedAt(request.kind, stored, digest));
            if gateway == null
            then (session.Stored(), outcome)
                 == (Dispatch(old(session.Stored()), [], address, seen, NoProvider, Queued).0,
                     Dispatch(old(session.Stored()), [], address, seen, NoProvider, Queued).2)
            else (session.Stored(), gateway.sent, outcome)
                 == Dispatch(old(session.Stored()), old(gateway.sent), address, seen, Idempotent, Queued)
  {
    var seen := request.(artifact := LookedAt(request.kind, stored, digest));
    outcome := session.DispatchRenterArtifact(gateway, address, seen);
  }
}
