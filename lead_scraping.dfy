/** `LeadScraper`: writes validated leads to the `leads` collection and runs
    a scrape-enrich-write batch. The document store is an in-memory sequence
    of records whose writes may fail; the scrapers and the enrichment service
    are inputs. */
module LeadScraping {
  import opened Leads
  import opened LeadValidator
  import opened WriteAccounting

  /** The `leads` collection of the document store, in the order documents
      were added. A write may be refused by the store for reasons outside the
      model; the refusal carries the text of the exception. */
  class LeadStore {
    var docs: seq<LeadRecord>

    constructor ()
      ensures docs == []
    {
      docs := [];
    }

    /** `collection('leads').document().set(record)`: adds exactly one
        document, or raises and adds nothing. */
    method Set(record: LeadRecord) returns (error: Option<string>)
      modifies this
      ensures error.None? ==> docs == old(docs) + [record]
      ensures error.Some? ==> docs == old(docs)
    {
      var accepted: bool :| true;
      if accepted {
        docs := docs + [record];
        error := None;
      } else {
        var reason: string :| true;
        error := Some(reason);
      }
    }
  }

  /** `enrich_lead_data`: the lead with `update` merged into its enrichment
      dictionary (an absent or empty dictionary starts from `{}`); every other
      field is left as it was. */
  function EnrichLeadData(lead: Lead, update: EnrichedData): (r: Lead)
    ensures r.enrichedData.Some?
    ensures r == lead.(enrichedData := r.enrichedData)
    ensures forall k :: k in update ==> k in r.enrichedData.value && r.enrichedData.value[k] == update[k]
    ensures forall k :: k in r.enrichedData.value && k !in update ==>
      lead.enrichedData.Some? && k in lead.enrichedData.value && r.enrichedData.value[k] == lead.enrichedData.value[k]
    ensures lead.enrichedData.Some? ==> lead.enrichedData.value.Keys <= r.enrichedData.value.Keys
  {
    var base: EnrichedData :=
      if lead.enrichedData.None? || lead.enrichedData.value == map[] then map[] else lead.enrichedData.value;
    lead.(enrichedData := Some(base + update))
  }

  /** Enrichment touches only the enrichment dictionary, so it never changes
      what validation says about a lead. */
  lemma EnrichKeepsValidation(lead: Lead, update: EnrichedData)
    ensures LeadErrors(EnrichLeadData(lead, update)) == LeadErrors(lead)
  {
  }

  /** One pass of the enrichment loop: the enriched lead, or the lead as it
      was when the enrichment service raised (`None`). */
  function EnrichStep(lead: Lead, update: Option<EnrichedData>): Lead
  {
    if update.Some? then EnrichLeadData(lead, update.value) else lead
  }

  /** The enrichment loop of `process_lead_batch`: every lead is kept, in
      order, enriched when the service answers and unchanged when it raises.
      `enrich` gives the service's answer for a lead. */
  method EnrichLeads(leads: seq<Lead>, enrich: Lead -> Option<EnrichedData>) returns (enriched: seq<Lead>)
    ensures |enriched| == |leads|
    ensures forall i :: 0 <= i < |leads| ==> enriched[i] == EnrichStep(leads[i], enrich(leads[i]))
    ensures forall i :: 0 <= i < |leads| ==> LeadErrors(enriched[i]) == LeadErrors(leads[i])
  {
    enriched := [];
    for i := 0 to |leads|
      invariant |enriched| == i
      invariant forall j :: 0 <= j < i ==> enriched[j] == EnrichStep(leads[j], enrich(leads[j]))
    {
      var lead := leads[i];
      var update := enrich(lead);
      if update.Some? {
        enriched := enriched + [EnrichLeadData(lead, update.value)];
      } else {
        enriched := enriched + [lead];
      }
    }
  }

  /** The store is never asked about a lead that failed validation: if this
      held for the first `i` leads and lead `i` was answered as `WriteLead`
      promises, it holds for the first `i + 1`. */
  lemma UnaskedStep(leads: seq<Lead>, i: nat, storeErrors: seq<Option<string>>, c: Checked, error: Option<string>)
    requires i < |leads| && |storeErrors| == i
    requires forall j :: 0 <= j < i && LeadErrors(leads[j]) != [] ==> storeErrors[j].None?
    requires c == Check(leads[i]) && (c.errors != [] ==> error.None?)
    ensures forall j :: 0 <= j < i + 1 && LeadErrors(leads[j]) != [] ==> (storeErrors + [error])[j].None?
  {
    assert |c.errors| == |LeadErrors(leads[i])|;
  }

  /** What `process_lead_batch` returns (the timestamp is left out). */
  datatype BatchReport =
    | Processed(sourceType: string, totalScraped: nat, totalEnriched: nat, writeResults: WriteResults)
    | BatchFailed(sourceType: string, error: string)

  /** The source types `process_lead_batch` has a scraper for. */
  predicate IsSupportedSource(sourceType: string)
  {
    sourceType == "linkedin" || sourceType == "website"
  }

  class LeadScraper {
    const db: LeadStore
    const collectionName: string

    /** Uses the given store client, or a new one when none is given. */
    constructor (client: LeadStore?)
      ensures client != null ==> db == client
      ensures client == null ==> fresh(db) && db.docs == []
      ensures collectionName == "leads"
    {
      if client != null {
        db := client;
      } else {
        db := new LeadStore();
      }
      collectionName := "leads";
    }

    /** One pass of the loop of `write_to_firestore`: validates `lead`; an
        invalid lead is counted as failed with a validation message, a valid
        one is written and counted as successful, or counted as failed with
        the store's error. `c` is the lead with its validation messages and
        `error` what the store answered (`None` when it was not asked). */
    method WriteLead(lead: Lead, results: WriteResults)
      returns (updated: WriteResults, ghost c: Checked, ghost error: Option<string>)
      modifies db
      ensures c == Check(lead)
      ensures c.errors != [] ==> error.None?
      ensures updated == Count(results, Outcome(c, error))
      ensures db.docs == old(db.docs) + Written([Outcome(c, error)])
    {
      var isValid, errors := ValidateLead(lead);
      c := Checked(lead, errors);
      error := None;
      if !isValid {
        updated := results.(failed := results.failed + 1,
                            errors := results.errors + [ValidationFailure(lead.name, errors)]);
        return;
      }
      var failure := db.Set(ToRecord(lead));
      if failure.Some? {
        updated := results.(failed := results.failed + 1,
                            errors := results.errors + [WriteFailure(lead.name, failure.value)]);
      } else {
        updated := results.(successful := results.successful + 1);
      }
      error := failure;
    }

    /** `write_to_firestore`: every lead is passed through the loop body in
        order. The results and the documents added are those of the
        outcomes of the leads; `storeErrors` records what the store answered
        for each lead (`None` for leads it was never asked about). */
    method WriteToFirestore(leads: seq<Lead>) returns (results: WriteResults, ghost storeErrors: seq<Option<string>>)
      modifies db
      ensures |storeErrors| == |leads|
      ensures forall i :: 0 <= i < |leads| && LeadErrors(leads[i]) != [] ==> storeErrors[i].None?
      ensures results == Tally(Outcomes(CheckAll(leads), storeErrors))
      ensures db.docs == old(db.docs) + Written(Outcomes(CheckAll(leads), storeErrors))
      ensures results.successful + results.failed == |leads|
      ensures |results.errors| == results.failed
      ensures |db.docs| == |old(db.docs)| + results.successful
    {
      results := WriteResults(0, 0, []);
      storeErrors := [];
      for i := 0 to |leads|
        invariant |storeErrors| == i
        invariant forall j :: 0 <= j < i && LeadErrors(leads[j]) != [] ==> storeErrors[j].None?
        invariant results == Tally(Outcomes(CheckAll(leads[..i]), storeErrors))
        invariant db.docs == old(db.docs) + Written(Outcomes(CheckAll(leads[..i]), storeErrors))
      {
        var updated;
        ghost var c, error;
        updated, c, error := WriteLead(leads[i], results);
        UnaskedStep(leads, i, storeErrors, c, error);
        BatchStep(leads, i, storeErrors, old(db.docs), results, c, error, updated, db.docs);
        results := updated;
        storeErrors := storeErrors + [error];
      }
      assert leads[..|leads|] == leads;
    }

    /** `process_lead_batch`: an unsupported source type is reported as an
        error and nothing is written; otherwise every scraped lead is
        enriched (or kept as it was) and the batch is written. `scraped` is
        what the scraper for `sourceType` returned and `enrich` the answers of
        the enrichment service. */
    method ProcessLeadBatch(sourceType: string, scraped: seq<Lead>, enrich: Lead -> Option<EnrichedData>)
      returns (report: BatchReport, ghost enriched: seq<Lead>, ghost storeErrors: seq<Option<string>>)
      modifies db
      ensures !IsSupportedSource(sourceType) ==>
        report == BatchFailed(sourceType, "Unsupported source type: " + sourceType) && db.docs == old(db.docs)
      ensures IsSupportedSource(sourceType) ==>
        && |enriched| == |scraped|
        && (forall i :: 0 <= i < |scraped| ==> enriched[i] == EnrichStep(scraped[i], enrich(scraped[i])))
        && |storeErrors| == |enriched|
        && report == Processed(sourceType, |scraped|, |scraped|, Tally(Outcomes(CheckAll(enriched), storeErrors)))
        && db.docs == old(db.docs) + Written(Outcomes(CheckAll(enriched), storeErrors))
    {
      if !IsSupportedSource(sourceType) {
        report := BatchFailed(sourceType, "Unsupported source type: " + sourceType);
        enriched, storeErrors := [], [];
        return;
      }
      var leads := scraped;
      var enrichedLeads := EnrichLeads(leads, enrich);
      var writeResults;
      writeResults, storeErrors := WriteToFirestore(enrichedLeads);
      enriched := enrichedLeads;
      report := Processed(sourceType, |leads|, |enrichedLeads|, writeResults);
    }
  }
}
