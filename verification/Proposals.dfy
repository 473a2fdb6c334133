/** Operations that propose operations. */
module Proposals {
  import opened Prelude
  import opened Conversion
  import opened Operations
  import opened Registry
  import ListLaws

  type PlainType = t: OpType | t != ProposalCreate witness Transfer

  /** An operation: a proposal, or one of the other types with its own fields. */
  datatype Operation = ProposalOp(body: ProposalBody) | PlainOp(kind: PlainType, fields: nat)

  datatype OpWrapper = OpWrapper(op: Operation)

  /** The operation type `proposal_create_operation`. */
  datatype ProposalBody = ProposalBody(
    fee: nat, payer: nat, expirationTime: nat, proposedOps: seq<OpWrapper>, reviewPeriodSeconds: Option<nat>)

  datatype Content = Proposal(p: ProposalBody) | Plain(kind: PlainType, fields: nat)

  /** The static variant an operation is. */
  function Unwrap(op: Operation): StaticVariant<OpType, Content> {
    match op
    case ProposalOp(p) => Holding(ProposalCreate, Proposal(p))
    case PlainOp(kind, fields) => Holding(kind, Plain(kind, fields))
  }

  /** The constructors of the Python class Operation. */
  function Wrap(c: Content): Operation {
    match c
    case Proposal(p) => ProposalOp(p)
    case Plain(kind, fields) => PlainOp(kind, fields)
  }

  function OpOf(): OpWrapper -> Operation {
    (w: OpWrapper) => w.op
  }

  function ToWrapper(): Operation -> OpWrapper {
    (op: Operation) => OpWrapper(op)
  }

  /** A default-constructed operation. */
  const BLANK: Operation := PlainOp(Transfer, 0)

  /** The proposal after a list has been assigned to its `proposed_operations`. */
  function WithProposed<P>(p: ProposalBody, l: seq<P>, extract: P -> Option<Operation>): ProposalBody {
    p.(proposedOps := MapSeq(ListAfter(MapSeq(p.proposedOps, OpOf()), l, extract, BLANK), ToWrapper()))
  }

  class ProposalObject {
    var op: ProposalBody

    constructor (op: ProposalBody)
      ensures this.op == op
    {
      this.op := op;
    }

    method EncodeProposedOperations() returns (l: seq<Operation>)
      ensures l == MapSeq(op.proposedOps, OpOf())
      ensures |l| == |op.proposedOps| && forall i :: 0 <= i < |l| ==> l[i] == op.proposedOps[i].op
    {
      l := [];
      for i := 0 to |op.proposedOps|
        invariant l == MapSeq(op.proposedOps[..i], OpOf())
      {
        l := l + [op.proposedOps[i].op];
      }
      assert op.proposedOps[..|op.proposedOps|] == op.proposedOps;
    }

    /** Resizes, then overwrites the wrapped operations from the last position down. */
    method DecodeProposedOperations<P>(l: seq<P>, extract: P -> Option<Operation>) returns (o: Outcome)
      modifies this
      ensures o == OutcomeOf(l, extract)
      ensures op == WithProposed(old(op), l, extract)
      ensures o == Done <==> forall i :: 0 <= i < |l| ==> extract(l[i]).Some?
      ensures forall i: nat :: o == Raised(i) <==>
                i < |l| && extract(l[i]).None? && forall j :: i < j < |l| ==> extract(l[j]).Some?
      ensures |op.proposedOps| == |l| && op == old(op).(proposedOps := op.proposedOps)
      ensures forall i :: 0 <= i < |l| ==>
                if o == Done || i > o.at then extract(l[i]) == Some(op.proposedOps[i].op)
                else op.proposedOps[i].op ==
                     if i < |old(op).proposedOps| then old(op).proposedOps[i].op else BLANK
    {
      OutcomeMeans(l, extract);
      ghost var prior := MapSeq(op.proposedOps, OpOf());
      var len := |l|;
      var ops := Resize(op.proposedOps, len, OpWrapper(BLANK));
      op := op.(proposedOps := ops);
      while len > 0
        invariant 0 <= len <= |l| == |op.proposedOps|
        invariant op == old(op).(proposedOps := op.proposedOps)
        invariant forall i :: 0 <= i < len ==> op.proposedOps[i].op == Resize(prior, |l|, BLANK)[i]
        invariant forall i :: len <= i < |l| ==> extract(l[i]) == Some(op.proposedOps[i].op)
      {
        len := len - 1;
        var v := extract(l[len]);
        if v.None? {
          ProposedWalkEnds(prior, op.proposedOps, l, extract, len + 1);
          return Raised(len);
        }
        op := op.(proposedOps := op.proposedOps[len := op.proposedOps[len].(op := v.value)]);
      }
      ProposedWalkEnds(prior, op.proposedOps, l, extract, 0);
      return Done;
    }
  }

  lemma ProposedWalkEnds<P>(prior: seq<Operation>, ws: seq<OpWrapper>, l: seq<P>, extract: P -> Option<Operation>,
      n: nat)
    requires n <= |l| == |ws|
    requires forall i :: 0 <= i < n ==> ws[i].op == Resize(prior, |l|, BLANK)[i]
    requires forall i :: n <= i < |l| ==> extract(l[i]) == Some(ws[i].op)
    requires n > 0 ==> extract(l[n - 1]).None?
    ensures ws == MapSeq(ListAfter(prior, l, extract, BLANK), ToWrapper())
    ensures OutcomeOf(l, extract) == if n == 0 then Done else Raised(n - 1)
  {
    ListWalkEnds(prior, MapSeq(ws, OpOf()), l, extract, BLANK, n);
  }

  /** `bp::extract` on a Python object that wraps an operation. */
  function Same(): Operation -> Option<Operation> {
    (op: Operation) => Some(op)
  }

  /** The getter behind the Python attribute of an operation that is registered for type `t`. */
  function Attribute(op: Operation, t: OpType): Option<Content> {
    DecodeStaticVariant(Unwrap(op), t)
  }

  /**
   * A Python client takes an operation apart and builds it again: if the `proposal_create` attribute
   * answers, it rebuilds every proposed operation, assigns the results to a copy of the proposal
   * that holds `stale` operations by then, and wraps that; otherwise it re-wraps what the one
   * attribute that answers returns.
   */
  function Rebuild(op: Operation, stale: ProposalBody -> seq<OpWrapper>): Operation {
    var content := Attribute(op, ProposalCreate);
    if content.None? then Wrap(Attribute(op, Unwrap(op).which).value)
    else
      var p := content.value.p;
      var l := MapSeq(p.proposedOps, OpOf());
      var rebuilt := seq(|l|, i requires 0 <= i < |l| => Rebuild(l[i], stale));
      Wrap(Proposal(WithProposed(p.(proposedOps := stale(p)), rebuilt, Same())))
  }

  /** These are the attributes of the class: each gives what `Attribute` says, and one answers. */
  lemma AttributesOfOperation(op: Operation, t: OpType)
    ensures Read(OPERATION_TABLE, NameOf(t), Unwrap(op)) == Attribute(op, t)
    ensures forall n :: Read(OPERATION_TABLE, n, Unwrap(op)).Some? <==> n == NameOf(Unwrap(op).which)
    ensures NameOf(ProposalCreate) == "proposal_create"
  {
    AttributeAnswersForType(t, Unwrap(op));
    OperationHasOneAccessor(Unwrap(op));
    ProposalAttribute();
  }

  /** `proposal_create` answers exactly for proposals; the content of an attribute that answers wraps to `op`. */
  lemma ProposalAccessor(op: Operation)
    ensures Attribute(op, ProposalCreate) == if op.ProposalOp? then Some(Proposal(op.body)) else None
    ensures forall t :: Attribute(op, t).Some? ==> Wrap(Attribute(op, t).value) == op
  {
  }

  /** Assigning all proposed operations leaves nothing of the stale ones. */
  lemma StaleNeverSurvives(p: ProposalBody, stale: seq<OpWrapper>, ops: seq<Operation>)
    ensures WithProposed(p.(proposedOps := stale), ops, Same()) == p.(proposedOps := MapSeq(ops, ToWrapper()))
  {
    ListLaws.ListRoundTrip(ops, MapSeq(stale, OpOf()), (op: Operation) => op, Same(), (op: Operation) => op, BLANK);
    assert MapSeq(ops, (op: Operation) => op) == ops;
  }

  /** Rebuilding gives the same operation at any depth of nesting, whatever the reused proposals held before. */
  lemma {:induction false} RebuildIsIdentity(op: Operation, stale: ProposalBody -> seq<OpWrapper>)
    ensures Rebuild(op, stale) == op
  {
    if op.ProposalOp? {
      var p := op.body;
      var l := MapSeq(p.proposedOps, OpOf());
      var rebuilt := seq(|l|, i requires 0 <= i < |l| => Rebuild(l[i], stale));
      forall i | 0 <= i < |p.proposedOps| ensures rebuilt[i] == p.proposedOps[i].op {
        RebuildIsIdentity(p.proposedOps[i].op, stale);
      }
      StaleNeverSurvives(p, stale(p), rebuilt);
      assert MapSeq(rebuilt, ToWrapper()) == p.proposedOps;
    }
  }
}
