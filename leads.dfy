/** The `Lead` dataclass and the record the scraper stores for it. */
module Leads {

  datatype Option<T> = None | Some(value: T)

  /** A point in time; the clock itself is not part of the model. */
  type Timestamp = int

  /** The enrichment dictionary. Its values are kept as opaque text. */
  type EnrichedData = map<string, string>

  /** A scraped lead: name and email are required strings, the rest optional. */
  datatype Lead = Lead(
    name: string,
    email: string,
    company: Option<string>,
    phone: Option<string>,
    title: Option<string>,
    source: Option<string>,
    scrapedAt: Option<Timestamp>,
    enrichedData: Option<EnrichedData>)

  /** The document written to the `leads` collection for one lead: the lead's
      own fields (the `created_at`/`updated_at` clock values are left out). */
  datatype LeadRecord = LeadRecord(
    name: string,
    email: string,
    company: Option<string>,
    phone: Option<string>,
    title: Option<string>,
    source: Option<string>,
    scrapedAt: Option<Timestamp>,
    enrichedData: Option<EnrichedData>)

  /** The dictionary `write_to_firestore` builds from a lead. */
  function ToRecord(lead: Lead): LeadRecord
  {
    LeadRecord(lead.name, lead.email, lead.company, lead.phone, lead.title,
               lead.source, lead.scrapedAt, lead.enrichedData)
  }

  /** Reads a stored document back as a lead. */
  function FromRecord(record: LeadRecord): Lead
  {
    Lead(record.name, record.email, record.company, record.phone, record.title,
         record.source, record.scrapedAt, record.enrichedData)
  }

  /** A stored record carries every field of its lead, so the lead can be
      read back from it unchanged. */
  lemma RecordRoundTrip(lead: Lead)
    ensures FromRecord(ToRecord(lead)) == lead
  {
  }
}
