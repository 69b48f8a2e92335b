/** What `write_to_firestore` does to each lead and what it reports for a
    batch, as functions of the leads and of what the store answered. The
    imperative loop in `LeadScraper` is proved against these. */
module WriteAccounting {
  import opened PyStr
  import opened Leads
  import opened LeadValidator

  /** A lead together with the messages `validate_lead` returned for it: it
      passed exactly when there are none. */
  datatype Checked = Checked(lead: Lead, errors: seq<string>)

  /** `validate_lead` applied to one lead. */
  function Check(lead: Lead): Checked
  {
    Checked(lead, Messages(LeadErrors(lead)))
  }

  /** `validate_lead` applied to every lead of a batch, in order. */
  function CheckAll(leads: seq<Lead>): (cs: seq<Checked>)
    ensures |cs| == |leads|
  {
    if leads == [] then []
    else CheckAll(leads[..|leads| - 1]) + [Check(leads[|leads| - 1])]
  }

  /** The i-th checked lead is the i-th lead with its own messages. */
  lemma {:induction false} CheckAt(leads: seq<Lead>, i: nat)
    requires i < |leads|
    ensures CheckAll(leads)[i] == Check(leads[i])
  {
    var n := |leads| - 1;
    if i < n {
      CheckAt(leads[..n], i);
    }
  }

  /** Checking one more lead of a batch appends its check. */
  lemma CheckAllNext(leads: seq<Lead>, i: nat)
    requires i < |leads|
    ensures CheckAll(leads[..i + 1]) == CheckAll(leads[..i]) + [Check(leads[i])]
  {
    assert leads[..i + 1][..i] == leads[..i];
  }

  /** What became of one lead: its record was stored, or it was counted as
      failed with one error message. */
  datatype LeadOutcome = Stored(record: LeadRecord) | Rejected(message: string)

  /** The `results` dictionary: counters and the list of error messages. */
  datatype WriteResults = WriteResults(successful: nat, failed: nat, errors: seq<string>)

  /** `f"Validation failed for {lead.name}: {', '.join(errors)}"`. */
  function ValidationFailure(name: string, errors: seq<string>): string
  {
    "Validation failed for " + name + ": " + Join(errors, ", ")
  }

  /** `f"Error writing {lead.name}: {str(e)}"`. */
  function WriteFailure(name: string, error: string): string
  {
    "Error writing " + name + ": " + error
  }

  /** One iteration of the loop. `storeError` is what the store raised when
      the record was written (`None` when the write went through); it is only
      consulted for a lead that passed validation. */
  function Outcome(c: Checked, storeError: Option<string>): LeadOutcome
  {
    if c.errors != [] then Rejected(ValidationFailure(c.lead.name, c.errors))
    else if storeError.Some? then Rejected(WriteFailure(c.lead.name, storeError.value))
    else Stored(ToRecord(c.lead))
  }

  /** The outcome of every lead of a batch, in input order. */
  function Outcomes(cs: seq<Checked>, storeErrors: seq<Option<string>>): (os: seq<LeadOutcome>)
    requires |storeErrors| == |cs|
    ensures |os| == |cs|
  {
    if cs == [] then []
    else
      var n := |cs| - 1;
      Outcomes(cs[..n], storeErrors[..n]) + [Outcome(cs[n], storeErrors[n])]
  }

  /** The i-th outcome of a batch is the outcome of its i-th lead. */
  lemma {:induction false} OutcomeAt(cs: seq<Checked>, storeErrors: seq<Option<string>>, i: nat)
    requires |storeErrors| == |cs| && i < |cs|
    ensures Outcomes(cs, storeErrors)[i] == Outcome(cs[i], storeErrors[i])
  {
    var n := |cs| - 1;
    if i < n {
      OutcomeAt(cs[..n], storeErrors[..n], i);
    }
  }

  /** The outcome of a lead of a batch, spelled out: a lead failing
      validation is rejected with its validation messages, a valid lead the
      store refused is rejected with the store's error, and any other lead is
      stored as its record. */
  lemma LeadOutcomeAt(leads: seq<Lead>, storeErrors: seq<Option<string>>, i: nat)
    requires |storeErrors| == |leads| && i < |leads|
    ensures var o := Outcomes(CheckAll(leads), storeErrors)[i];
      && (LeadErrors(leads[i]) != [] ==>
            o == Rejected(ValidationFailure(leads[i].name, Messages(LeadErrors(leads[i])))))
      && (LeadErrors(leads[i]) == [] && storeErrors[i].Some? ==>
            o == Rejected(WriteFailure(leads[i].name, storeErrors[i].value)))
      && (o.Stored? <==> LeadErrors(leads[i]) == [] && storeErrors[i].None?)
      && (o.Stored? ==> o.record == ToRecord(leads[i]))
  {
    OutcomeAt(CheckAll(leads), storeErrors, i);
    CheckAt(leads, i);
  }

  /** The records stored, in input order. */
  function Written(os: seq<LeadOutcome>): seq<LeadRecord>
  {
    if os == [] then []
    else
      var last := os[|os| - 1];
      Written(os[..|os| - 1]) + (if last.Stored? then [last.record] else [])
  }

  /** The results after the loop has seen `os`: one count per lead, one
      message per failure, and as many successes as records written. */
  function Tally(os: seq<LeadOutcome>): (r: WriteResults)
    ensures r.successful + r.failed == |os|
    ensures |r.errors| == r.failed
    ensures r.successful == |Written(os)|
  {
    if os == [] then WriteResults(0, 0, [])
    else Count(Tally(os[..|os| - 1]), os[|os| - 1])
  }

  /** Adds one outcome to the results: `successful += 1`, or `failed += 1`
      together with its message. */
  function Count(r: WriteResults, o: LeadOutcome): WriteResults
  {
    match o
    case Stored(_) => r.(successful := r.successful + 1)
    case Rejected(message) => r.(failed := r.failed + 1, errors := r.errors + [message])
  }

  /** The positions of the stored outcomes, in increasing order: the k-th
      written record is the record of the lead at the k-th such position, and
      every stored outcome is among them. */
  function StoredPositions(os: seq<LeadOutcome>): (ps: seq<nat>)
    ensures |ps| == |Written(os)|
    ensures forall k :: 0 <= k < |ps| ==> ps[k] < |os| && os[ps[k]].Stored? && Written(os)[k] == os[ps[k]].record
    ensures forall k, l :: 0 <= k < l < |ps| ==> ps[k] < ps[l]
    ensures forall i :: 0 <= i < |os| && os[i].Stored? ==> i in ps
  {
    if os == [] then []
    else
      var n := |os| - 1;
      var prefix := os[..n];
      var ps := StoredPositions(prefix);
      assert forall k :: 0 <= k < |ps| ==> os[ps[k]] == prefix[ps[k]];
      assert Written(os) == Written(prefix) + (if os[n].Stored? then [os[n].record] else []);
      if os[n].Stored? then ps + [n] else ps
  }

  /** The outcomes of a batch grow by one with each lead. */
  lemma OutcomesAppend(cs: seq<Checked>, storeErrors: seq<Option<string>>, c: Checked, storeError: Option<string>)
    requires |storeErrors| == |cs|
    ensures Outcomes(cs + [c], storeErrors + [storeError])
         == Outcomes(cs, storeErrors) + [Outcome(c, storeError)]
  {
    assert (cs + [c])[..|cs|] == cs;
    assert (storeErrors + [storeError])[..|cs|] == storeErrors;
  }

  /** Tallying one more outcome counts it once and writes its record if it
      was stored. */
  lemma TallyAppend(os: seq<LeadOutcome>, o: LeadOutcome)
    ensures Tally(os + [o]) == Count(Tally(os), o)
    ensures Written(os + [o]) == Written(os) + (if o.Stored? then [o.record] else [])
  {
    assert (os + [o])[..|os|] == os;
  }

  /** Records written after those of `os` extend the records of `os`. */
  lemma WrittenAppend(base: seq<LeadRecord>, os: seq<LeadOutcome>, o: LeadOutcome)
    ensures base + Written(os) + Written([o]) == base + Written(os + [o])
  {
    assert (os + [o])[..|os|] == os;
    assert [o][..0] == [];
  }

  /** One more lead through the loop: if the results and the documents
      were those of the first `i` leads, then counting the outcome of lead `i`
      and adding its record (if stored) gives those of the first `i + 1`. */
  lemma BatchStep(leads: seq<Lead>, i: nat, storeErrors: seq<Option<string>>, base: seq<LeadRecord>,
                  results: WriteResults, c: Checked, error: Option<string>,
                  updated: WriteResults, docs: seq<LeadRecord>)
    requires i < |leads| && |storeErrors| == i
    requires results == Tally(Outcomes(CheckAll(leads[..i]), storeErrors))
    requires c == Check(leads[i])
    requires updated == Count(results, Outcome(c, error))
    requires docs == base + Written(Outcomes(CheckAll(leads[..i]), storeErrors)) + Written([Outcome(c, error)])
    ensures updated == Tally(Outcomes(CheckAll(leads[..i + 1]), storeErrors + [error]))
    ensures docs == base + Written(Outcomes(CheckAll(leads[..i + 1]), storeErrors + [error]))
  {
    var os := Outcomes(CheckAll(leads[..i]), storeErrors);
    var o := Outcome(c, error);
    CheckAllNext(leads, i);
    OutcomesAppend(CheckAll(leads[..i]), storeErrors, c, error);
    TallyAppend(os, o);
    WrittenAppend(base, os, o);
  }

  /** No lead that fails validation is ever written: every written record is
      the record of a lead, at an increasing position, that passed validation
      and whose write the store accepted. */
  lemma NoInvalidWritten(leads: seq<Lead>, storeErrors: seq<Option<string>>)
    requires |storeErrors| == |leads|
    ensures var os := Outcomes(CheckAll(leads), storeErrors);
      var ps := StoredPositions(os);
      forall k :: 0 <= k < |ps| ==>
        ps[k] < |leads| && LeadErrors(leads[ps[k]]) == [] && storeErrors[ps[k]].None?
        && Written(os)[k] == ToRecord(leads[ps[k]])
  {
    var os := Outcomes(CheckAll(leads), storeErrors);
    var ps := StoredPositions(os);
    forall k | 0 <= k < |ps|
      ensures LeadErrors(leads[ps[k]]) == [] && storeErrors[ps[k]].None?
      ensures Written(os)[k] == ToRecord(leads[ps[k]])
    {
      LeadOutcomeAt(leads, storeErrors, ps[k]);
    }
  }

  /** A lead that passes validation and whose write is accepted is written. */
  lemma ValidAcceptedWritten(leads: seq<Lead>, storeErrors: seq<Option<string>>, i: nat)
    requires |storeErrors| == |leads| && i < |leads|
    requires LeadErrors(leads[i]) == [] && storeErrors[i].None?
    ensures ToRecord(leads[i]) in Written(Outcomes(CheckAll(leads), storeErrors))
  {
    var os := Outcomes(CheckAll(leads), storeErrors);
    var ps := StoredPositions(os);
    LeadOutcomeAt(leads, storeErrors, i);
    var k :| 0 <= k < |ps| && ps[k] == i;
    assert Written(os)[k] == ToRecord(leads[i]);
  }

  /** The number of leads that fail validation, plus the number of valid
      leads the store refused. */
  function Failures(leads: seq<Lead>, storeErrors: seq<Option<string>>): nat
    requires |storeErrors| == |leads|
  {
    if leads == [] then 0
    else
      var n := |leads| - 1;
      Failures(leads[..n], storeErrors[..n])
      + (if LeadErrors(leads[n]) != [] || storeErrors[n].Some? then 1 else 0)
  }

  /** `failed` counts exactly the invalid leads and the refused writes. */
  lemma {:induction false} FailedCount(leads: seq<Lead>, storeErrors: seq<Option<string>>)
    requires |storeErrors| == |leads|
    ensures Tally(Outcomes(CheckAll(leads), storeErrors)).failed == Failures(leads, storeErrors)
  {
    if leads != [] {
      var n := |leads| - 1;
      var cs := CheckAll(leads);
      var os := Outcomes(cs, storeErrors);
      FailedCount(leads[..n], storeErrors[..n]);
      assert cs[..n] == CheckAll(leads[..n]);
      assert os[..n] == Outcomes(CheckAll(leads[..n]), storeErrors[..n]);
      LeadOutcomeAt(leads, storeErrors, n);
    }
  }

  /** The records of all the leads, in order. */
  function ToRecords(leads: seq<Lead>): (rs: seq<LeadRecord>)
    ensures |rs| == |leads|
    ensures forall i :: 0 <= i < |leads| ==> rs[i] == ToRecord(leads[i])
  {
    if leads == [] then []
    else ToRecords(leads[..|leads| - 1]) + [ToRecord(leads[|leads| - 1])]
  }

  /** When every lead is valid and every write is accepted, all leads are
      written, in order, and nothing fails. */
  lemma {:induction false} AllWritten(leads: seq<Lead>, storeErrors: seq<Option<string>>)
    requires |storeErrors| == |leads|
    requires forall i :: 0 <= i < |leads| ==> LeadErrors(leads[i]) == [] && storeErrors[i].None?
    ensures Written(Outcomes(CheckAll(leads), storeErrors)) == ToRecords(leads)
    ensures Tally(Outcomes(CheckAll(leads), storeErrors)) == WriteResults(|leads|, 0, [])
  {
    if leads != [] {
      var n := |leads| - 1;
      var cs := CheckAll(leads);
      var os := Outcomes(cs, storeErrors);
      AllWritten(leads[..n], storeErrors[..n]);
      assert cs[..n] == CheckAll(leads[..n]);
      assert os[..n] == Outcomes(CheckAll(leads[..n]), storeErrors[..n]);
      LeadOutcomeAt(leads, storeErrors, n);
    }
  }
}
