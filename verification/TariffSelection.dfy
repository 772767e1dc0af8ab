/** Semantic tariff selection for one invoice: the catalog may change between reading the candidates and
    saving, and the AI may answer anything. */
module TariffSelection {
  import opened Prelude
  import opened Decimals

  type InvoiceId = nat
  type TariffId = nat
  type RunId = nat

  datatype Tariff = Tariff(active: bool, deleted: bool)

  datatype Status = SELECTED | NO_TARIFF | LOW_CONFIDENCE

  datatype Output = Output(ids: seq<TariffId>, confidence: Dec, reason: string)

  datatype SelectionRun = SelectionRun(invoice: InvoiceId, status: Status, confidence: Option<Dec>, threshold: Dec,
                                       reason: string, tariffs: seq<TariffId>)

  datatype Error = InvoiceNotFound | AIError | UnknownTariff | NotActiveAnyMore

  const EMPTY_CATALOG := "No active tariff exists in the catalog."

  type Catalog = map<TariffId, Tariff>

  /** What a selection leaves behind. */
  datatype Tables = Tables(runs: map<RunId, SelectionRun>, invoices: map<InvoiceId, string>,
                           pending: set<(InvoiceId, Status)>)

  predicate Selectable(catalog: Catalog, id: TariffId) {
    id in catalog && catalog[id].active && !catalog[id].deleted
  }

  predicate AllSelectable(catalog: Catalog, ids: seq<TariffId>) {
    forall i :: 0 <= i < |ids| ==> Selectable(catalog, ids[i])
  }

  predicate NoCandidates(catalog: Catalog) {
    forall id :: id in catalog ==> !Selectable(catalog, id)
  }

  predicate HasRun(t: Tables, invoice: InvoiceId) {
    exists r :: r in t.runs && t.runs[r].invoice == invoice
  }

  predicate NoRepeats(ids: seq<TariffId>) {
    forall i, j :: 0 <= i < j < |ids| ==> ids[i] != ids[j]
  }

  /** Tariffs are selected only with a confidence that is not below the threshold. */
  ghost predicate Confident(run: SelectionRun) {
    run.status == SELECTED ==> run.confidence.Some? && V(run.confidence.value) >= V(run.threshold)
  }

  /** One run per invoice; a run either selects tariffs, or selects none and has opened a pending item. */
  ghost predicate RunInv(t: Tables, r: RunId)
    requires r in t.runs
  {
    var run := t.runs[r];
    && (run.status == SELECTED <==> run.tariffs != [])
    && NoRepeats(run.tariffs)
    && Confident(run)
    && (run.status != SELECTED ==> (run.invoice, run.status) in t.pending)
    && run.invoice in t.invoices
  }

  ghost predicate Valid(t: Tables) {
    && (forall r, r' :: r in t.runs && r' in t.runs && t.runs[r].invoice == t.runs[r'].invoice ==> r == r')
    && (forall r :: r in t.runs ==> RunInv(t, r))
    && (forall p :: p in t.pending ==> HasRun(t, p.0))
  }

  /** Low confidence wins over an empty answer. */
  function Decide(o: Output, threshold: Dec): (Status, seq<TariffId>) {
    if Less(o.confidence, threshold) then (LOW_CONFIDENCE, [])
    else if o.ids == [] then (NO_TARIFF, [])
    else (SELECTED, o.ids)
  }

  /** What the decision means: too little confidence rejects any answer; otherwise exactly the answered tariffs
      are selected, if there are any. */
  lemma DecideMeans(o: Output, threshold: Dec)
    ensures var (status, ids) := Decide(o, threshold);
            && (status == LOW_CONFIDENCE <==> V(o.confidence) < V(threshold))
            && (status == SELECTED <==> V(o.confidence) >= V(threshold) && o.ids != [])
            && (status == NO_TARIFF <==> V(o.confidence) >= V(threshold) && o.ids == [])
            && ids == (if status == SELECTED then o.ids else [])
  {
    OrderValue(o.confidence, threshold);
  }

  function Saved(t: Tables, id: RunId, run: SelectionRun): Tables {
    Tables(t.runs[id := run],
           if run.status == SELECTED then t.invoices else t.invoices[run.invoice := "PENDING"],
           if run.status == SELECTED then t.pending else t.pending + {(run.invoice, run.status)})
  }

  lemma SavedKeeps(t: Tables, id: RunId, run: SelectionRun)
    requires Valid(t) && id !in t.runs && !HasRun(t, run.invoice) && run.invoice in t.invoices
    requires (run.status == SELECTED <==> run.tariffs != []) && NoRepeats(run.tariffs) && Confident(run)
    ensures Valid(Saved(t, id, run))
    ensures var after := Saved(t, id, run);
            && after.runs == t.runs[id := run]
            && after.invoices == (if run.status == SELECTED then t.invoices else t.invoices[run.invoice := "PENDING"])
            && after.pending == t.pending + (if run.status == SELECTED then {} else {(run.invoice, run.status)})
  {
    var t' := Saved(t, id, run);
    forall r | r in t'.runs
      ensures RunInv(t', r)
    {
      if r != id { assert RunInv(t, r); }
    }
    forall p | p in t'.pending
      ensures HasRun(t', p.0)
    {
      if p in t.pending {
        var r :| r in t.runs && t.runs[r].invoice == p.0;
        assert r in t'.runs && t'.runs[r].invoice == p.0;
      } else {
        assert t'.runs[id].invoice == p.0;
      }
    }
  }

  class TariffSelectionService {
    var t: Tables
    var catalog: Catalog
    const threshold: Dec

    constructor (t: Tables, catalog: Catalog, threshold: Dec)
      ensures this.t == t && this.catalog == catalog && this.threshold == threshold
    {
      this.t, this.catalog, this.threshold := t, catalog, threshold;
    }

    /** `answer` is the AI's output, or None if the call raises; `later` is the catalog when saving. The
        AI's list has no repeats, which its output schema enforces. */
    method Select(invoice: InvoiceId, answer: Option<Output>, later: Catalog, newRun: RunId)
      returns (r: Result<SelectionRun, Error>)
      requires Valid(t) && newRun !in t.runs && (answer.Some? ==> NoRepeats(answer.value.ids))
      modifies this
      ensures Valid(t)
      ensures HasRun(old(t), invoice) ==>
                r.Ok? && r.value.invoice == invoice && r.value in old(t).runs.Values && t == old(t)
      ensures !HasRun(old(t), invoice) && invoice !in old(t).invoices ==> r == Err(InvoiceNotFound)
      ensures !HasRun(old(t), invoice) && invoice in old(t).invoices ==>
                if NoCandidates(old(catalog)) then
                  r == Ok(SelectionRun(invoice, NO_TARIFF, None, threshold, EMPTY_CATALOG, []))
                else if answer.None? then r == Err(AIError)
                else if !AllSelectable(old(catalog), answer.value.ids) then r == Err(UnknownTariff)
                else
                  var (status, ids) := Decide(answer.value, threshold);
                  if status == SELECTED && !AllSelectable(later, ids) then r == Err(NotActiveAnyMore)
                  else r == Ok(SelectionRun(invoice, status, Some(answer.value.confidence), threshold,
                                            answer.value.reason, ids))
      ensures r.Err? ==> t == old(t)
      ensures r.Ok? && !HasRun(old(t), invoice) ==> t == Saved(old(t), newRun, r.value)
      ensures r.Ok? && !HasRun(old(t), invoice) && r.value.confidence.Some? ==>
                var o, run := answer.value, r.value;
                && answer.Some? && run.confidence == Some(o.confidence)
                && run.threshold == threshold && run.reason == o.reason
                && (run.status == LOW_CONFIDENCE <==> V(o.confidence) < V(threshold))
                && (run.status == SELECTED <==> V(o.confidence) >= V(threshold) && o.ids != [])
                && run.tariffs == (if run.status == SELECTED then o.ids else [])
                && forall id :: id in run.tariffs ==>
                     id in old(catalog) && id in later && later[id].active && !later[id].deleted
    {
      if i :| i in t.runs && t.runs[i].invoice == invoice {
        assert t.runs[i] in t.runs.Values;
        return Ok(t.runs[i]);
      }
      if invoice !in t.invoices {
        return Err(InvoiceNotFound);
      }
      var candidates := set id | id in catalog && Selectable(catalog, id);
      if candidates == {} {
        assert forall id :: id in catalog && Selectable(catalog, id) ==> id in candidates;
        catalog := later;
        r := Save(invoice, SelectionRun(invoice, NO_TARIFF, None, threshold, EMPTY_CATALOG, []), newRun);
        return r;
      }
      ghost var some :| some in candidates;
      if answer.None? {
        return Err(AIError);
      }
      var output := answer.value;
      DecideMeans(output, threshold);
      if !((set id | id in output.ids) <= candidates) {
        ghost var unknown :| unknown in output.ids && unknown !in candidates;
        ghost var i :| 0 <= i < |output.ids| && output.ids[i] == unknown;
        assert !Selectable(old(catalog), output.ids[i]);
        return Err(UnknownTariff);
      }
      forall i | 0 <= i < |output.ids|
        ensures Selectable(old(catalog), output.ids[i])
      {
        assert output.ids[i] in (set id | id in output.ids);
        assert output.ids[i] in candidates;
      }
      var status, selected := SELECTED, output.ids;
      if Less(output.confidence, threshold) {
        status, selected := LOW_CONFIDENCE, [];
      } else if output.ids == [] {
        status, selected := NO_TARIFF, [];
      }
      catalog := later;
      r := Save(invoice, SelectionRun(invoice, status, Some(output.confidence), threshold, output.reason, selected),
                newRun);
    }

    /** Save unless a run exists; the chosen tariffs must still be an active subset of the catalog. */
    method Save(invoice: InvoiceId, run: SelectionRun, newRun: RunId) returns (r: Result<SelectionRun, Error>)
      requires Valid(t) && newRun !in t.runs && run.invoice == invoice
      requires (run.status == SELECTED <==> run.tariffs != []) && NoRepeats(run.tariffs) && Confident(run)
      modifies this`t
      ensures Valid(t)
      ensures HasRun(old(t), invoice) ==>
                r.Ok? && r.value in old(t).runs.Values && r.value.invoice == invoice && t == old(t)
      ensures !HasRun(old(t), invoice) ==>
                r == if invoice !in old(t).invoices then Err(InvoiceNotFound)
                     else if run.status == SELECTED && !AllSelectable(catalog, run.tariffs) then Err(NotActiveAnyMore)
                     else Ok(run)
      ensures !HasRun(old(t), invoice) ==> t == if r.Ok? then Saved(old(t), newRun, run) else old(t)
    {
      if i :| i in t.runs && t.runs[i].invoice == invoice {
        assert t.runs[i] in t.runs.Values;
        return Ok(t.runs[i]);
      }
      if invoice !in t.invoices {
        return Err(InvoiceNotFound);
      }
      if run.status == SELECTED && !AllSelectable(catalog, run.tariffs) {
        return Err(NotActiveAnyMore);
      }
      // The unique pair (invoice, type) of pending items is free, because every pending item has a run.
      assert (invoice, run.status) !in t.pending;
      SavedKeeps(t, newRun, run);
      t := t.(runs := t.runs[newRun := run.(tariffs := [])]);
      for n := 0 to |run.tariffs|
        invariant newRun in t.runs && t.runs[newRun] == run.(tariffs := run.tariffs[..n])
        invariant t == old(t).(runs := old(t).runs[newRun := t.runs[newRun]])
      {
        t := t.(runs := t.runs[newRun := run.(tariffs := t.runs[newRun].tariffs + [run.tariffs[n]])]);
      }
      assert run.tariffs[..|run.tariffs|] == run.tariffs;
      if run.status != SELECTED {
        t := t.(invoices := t.invoices[invoice := "PENDING"], pending := t.pending + {(invoice, run.status)});
      }
      return Ok(run);
    }
  }
}
