/** Consolidation of document statuses into one invoice status, and the tolerance decision. */
module Finance {
  import opened PowersOfTen
  import D = Decimals

  datatype DocumentStatus =
    | Correct | Incorrect | PendingMissingInfo | PendingAmbiguity | PendingNoTariff | ManualReview | Error

  datatype InvoiceStatus = CORRECT | INCORRECT | PENDING | MANUAL_REVIEW | NOT_AUDITABLE | ERROR

  function Counts(ds: seq<DocumentStatus>): multiset<DocumentStatus> {
    multiset(ds)
  }

  /** The branches of `consolidate_statuses`, over the counts. */
  function Consolidate(ds: seq<DocumentStatus>): InvoiceStatus {
    var counts := Counts(ds);
    if ds == [] then NOT_AUDITABLE
    else if counts[Incorrect] != 0 then INCORRECT
    else if counts[PendingMissingInfo] != 0 || counts[PendingAmbiguity] != 0 || counts[PendingNoTariff] != 0
    then PENDING
    else if counts[Error] != 0 then ERROR
    else if counts[ManualReview] != 0 then MANUAL_REVIEW
    else if counts[Correct] == |ds| then CORRECT
    else MANUAL_REVIEW
  }

  function Rank(s: InvoiceStatus): nat {
    match s
    case NOT_AUDITABLE => 0
    case CORRECT => 1
    case MANUAL_REVIEW => 2
    case ERROR => 3
    case PENDING => 4
    case INCORRECT => 5
  }

  function Join(a: InvoiceStatus, b: InvoiceStatus): InvoiceStatus {
    if Rank(a) >= Rank(b) then a else b
  }

  /** The status of one document alone. */
  function Lift(d: DocumentStatus): InvoiceStatus {
    match d
    case Correct => CORRECT
    case Incorrect => INCORRECT
    case ManualReview => MANUAL_REVIEW
    case Error => ERROR
    case _ => PENDING
  }

  /** The reference: the worst document decides. */
  function Worst(ds: seq<DocumentStatus>): InvoiceStatus {
    if ds == [] then NOT_AUDITABLE else Join(Lift(ds[0]), Worst(ds[1..]))
  }

  lemma {:induction false} WorstDominates(ds: seq<DocumentStatus>)
    ensures forall i :: 0 <= i < |ds| ==> Rank(Lift(ds[i])) <= Rank(Worst(ds))
    ensures ds != [] ==> exists i :: 0 <= i < |ds| && Lift(ds[i]) == Worst(ds)
    ensures ds == [] ==> Worst(ds) == NOT_AUDITABLE
  {
    if ds != [] {
      WorstDominates(ds[1..]);
      if Worst(ds) == Lift(ds[0]) {
      } else {
        var i :| 0 <= i < |ds[1..]| && Lift(ds[1..][i]) == Worst(ds[1..]);
        assert ds[i + 1] == ds[1..][i];
      }
      assert forall i :: 0 < i < |ds| ==> ds[i] == ds[1..][i - 1];
    }
  }

  lemma {:induction false} AllCounted(ds: seq<DocumentStatus>)
    ensures |ds| == Counts(ds)[Correct] + Counts(ds)[Incorrect] + Counts(ds)[PendingMissingInfo]
                    + Counts(ds)[PendingAmbiguity] + Counts(ds)[PendingNoTariff]
                    + Counts(ds)[ManualReview] + Counts(ds)[Error]
  {
    if ds != [] {
      AllCounted(ds[1..]);
      forall d
        ensures Counts(ds)[d] == Counts(ds[1..])[d] + (if d == ds[0] then 1 else 0)
      {
        CountHead(ds, d);
      }
    }
  }

  lemma CountHead(ds: seq<DocumentStatus>, d: DocumentStatus)
    requires ds != []
    ensures Counts(ds)[d] == Counts(ds[1..])[d] + (if d == ds[0] then 1 else 0)
  {
    assert ds == [ds[0]] + ds[1..];
  }

  /** The counting branches compute the worst status; the last branch is never taken. */
  lemma ConsolidateIsWorst(ds: seq<DocumentStatus>)
    ensures Consolidate(ds) == Worst(ds)
    ensures Consolidate(ds) == MANUAL_REVIEW ==> ManualReview in ds
  {
    if ds != [] {
      AllCounted(ds);
      WorstDominates(ds);
      var i :| 0 <= i < |ds| && Lift(ds[i]) == Worst(ds);
      assert ds[i] in Counts(ds);
    }
  }

  /** What each status of an invoice says about its documents. */
  lemma StatusMeans(ds: seq<DocumentStatus>)
    ensures Consolidate(ds) == NOT_AUDITABLE <==> ds == []
    ensures Consolidate(ds) == INCORRECT <==> Incorrect in ds
    ensures Consolidate(ds) == PENDING <==> Incorrect !in ds && AnyPending(ds)
    ensures Consolidate(ds) == ERROR <==> Incorrect !in ds && !AnyPending(ds) && Error in ds
    ensures Consolidate(ds) == MANUAL_REVIEW <==>
              Incorrect !in ds && !AnyPending(ds) && Error !in ds && ManualReview in ds
    ensures Consolidate(ds) == CORRECT <==> ds != [] && forall d :: d in ds ==> d == Correct
  {
    ConsolidateIsWorst(ds);
    CorrectIff(ds);
    forall d
      ensures d in ds <==> Counts(ds)[d] != 0
    {
    }
  }

  predicate AnyPending(ds: seq<DocumentStatus>) {
    PendingMissingInfo in ds || PendingAmbiguity in ds || PendingNoTariff in ds
  }

  /** The status of a concatenation is the join of the parts. */
  lemma {:induction false} Homomorphism(a: seq<DocumentStatus>, b: seq<DocumentStatus>)
    ensures Consolidate(a + b) == Join(Consolidate(a), Consolidate(b))
  {
    ConsolidateIsWorst(a);
    ConsolidateIsWorst(b);
    ConsolidateIsWorst(a + b);
    WorstOfConcatenation(a, b);
  }

  lemma {:induction false} WorstOfConcatenation(a: seq<DocumentStatus>, b: seq<DocumentStatus>)
    ensures Worst(a + b) == Join(Worst(a), Worst(b))
  {
    if a == [] {
      assert a + b == b;
    } else {
      assert (a + b)[1..] == a[1..] + b;
      WorstOfConcatenation(a[1..], b);
    }
  }

  /** The order of the documents does not matter. */
  lemma PermutationInvariant(a: seq<DocumentStatus>, b: seq<DocumentStatus>)
    requires multiset(a) == multiset(b)
    ensures Consolidate(a) == Consolidate(b)
  {
    assert |a| == |multiset(a)| && |b| == |multiset(b)|;
  }

  lemma CorrectIff(ds: seq<DocumentStatus>)
    ensures Consolidate(ds) == CORRECT <==> ds != [] && forall i :: 0 <= i < |ds| ==> ds[i].Correct?
  {
    ConsolidateIsWorst(ds);
    WorstDominates(ds);
  }

  // ----- tolerance -----

  /** Digits of the default decimal context, which these rules run in. */
  const DEFAULT_PREC: nat := 28

  /** r is a nearest value of 28 digits; how ties go is left open. */
  ghost predicate Near(x: real, r: D.Dec) {
    D.Short(DEFAULT_PREC, r)
    && forall c: D.Dec :: D.Short(DEFAULT_PREC, c) ==> D.Abs(D.V(r) - x) <= D.Abs(D.V(c) - x)
  }

  ghost predicate Fits(x: real) {
    D.Representable(DEFAULT_PREC, x)
  }

  function Magnitude(d: D.Dec): D.Dec {
    d.(neg := false)
  }

  function Larger(a: D.Dec, b: D.Dec): D.Dec {
    if D.Less(a, b) then b else a
  }

  /** `abs(difference) <= max(absolute_tolerance, percentage_allowance)`. */
  function WithinTolerance(difference: D.Dec, absolute: D.Dec, allowance: D.Dec): bool {
    !D.Less(Larger(absolute, allowance), Magnitude(difference))
  }

  ghost function Max(x: real, y: real): real {
    if x < y then y else x
  }

  ghost predicate IsProduct(x: real, y: real, z: real) {
    z == x * y
  }

  /** z is the result of a rounded multiplication or of a rounded division by one hundred. */
  ghost predicate NearProduct(x: real, y: real, r: D.Dec) {
    exists z :: IsProduct(x, y, z) && Near(z, r)
  }

  ghost predicate NearHundredth(x: real, r: D.Dec) {
    exists z :: 100.0 * z == x && Near(z, r)
  }

  lemma SameProduct(x: real, y: real, z: real, w: real)
    requires IsProduct(x, y, z) && IsProduct(x, y, w)
    ensures z == w
  {
  }

  /** `limit` is the exact percentage of `magnitude`. */
  lemma AllowanceIsExact(magnitude: real, percent: real, size: D.Dec, product: D.Dec, allowance: D.Dec, base: real,
                         limit: real)
    requires IsProduct(magnitude, percent, base) && 100.0 * limit == base && Fits(magnitude) && Fits(base)
             && Fits(limit)
    requires Near(magnitude, size) && NearProduct(D.V(size), percent, product) && NearHundredth(D.V(product), allowance)
    ensures D.V(allowance) == limit
  {
    var z :| IsProduct(D.V(size), percent, z) && Near(z, product);
    SameProduct(magnitude, percent, base, z);
  }

  lemma DecisionIsExact(difference: D.Dec, absolute: D.Dec, allowance: D.Dec)
    ensures WithinTolerance(difference, absolute, allowance)
            <==> D.Abs(D.V(difference)) <= Max(D.V(absolute), D.V(allowance))
  {
    D.OrderValue(absolute, allowance);
    D.OrderValue(Larger(absolute, allowance), Magnitude(difference));
    D.SignOfValue(Magnitude(difference));
    D.SignOfValue(difference);
  }

  /** When the difference and the allowance need at most 28 digits, the decision is the exact one, in any
      rounding mode that rounds to nearest. `size` is the computed |expected|, `product` its product with the
      percentage and `allowance` a hundredth of that. */
  lemma ToleranceIsExact(charged: D.Dec, expected: D.Dec, absolute: D.Dec, percent: D.Dec, difference: D.Dec,
                         size: D.Dec, product: D.Dec, allowance: D.Dec, base: real, limit: real)
    requires Near(D.V(charged) - D.V(expected), difference) && Near(D.Abs(D.V(expected)), size)
    requires NearProduct(D.V(size), D.V(percent), product) && NearHundredth(D.V(product), allowance)
    requires IsProduct(D.Abs(D.V(expected)), D.V(percent), base) && 100.0 * limit == base
    requires Fits(D.V(charged) - D.V(expected)) && Fits(D.Abs(D.V(expected))) && Fits(base) && Fits(limit)
    ensures WithinTolerance(difference, absolute, allowance)
            <==> D.Abs(D.V(charged) - D.V(expected)) <= Max(D.V(absolute), limit)
  {
    AllowanceIsExact(D.Abs(D.V(expected)), D.V(percent), size, product, allowance, base, limit);
    DecisionIsExact(difference, absolute, allowance);
  }
}
