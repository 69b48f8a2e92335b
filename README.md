# Lead scraper: validation and batch accounting

A Dafny model of the core of `backend/lead_scraper.py`. It covers three parts:

- the rules `LeadValidator` applies to a lead: `validate_email`, `validate_phone` and `validate_lead`;
- the loop of `LeadScraper.write_to_firestore`, which validates each lead, writes the valid ones to the `leads` collection and keeps the `successful` / `failed` counters and the list of error messages;
- `LeadScraper.process_lead_batch`, which picks a scraper by source type, runs every scraped lead through enrichment and hands the batch to `write_to_firestore`.

The files, one module each:

- `py_str.dfy` (`PyStr`): the Python string operations the validator uses, over `seq<char>`. These are `split` with a one-character separator, `join`, `replace(c, '')` and `strip`. Lemmas state what `split`, `replace` and `strip` compute and how `join` grows part by part.
- `leads.dfy` (`Leads`): the `Lead` dataclass and the record written for it.
- `lead_validator.dfy` (`LeadValidator`):
  - the email and phone predicates, with lemmas pinning down their exact, quirky behaviour;
  - `ValidateLead`, the method that builds the ordered list of error messages, proved against the pure `LeadErrors`.
- `write_accounting.dfy` (`WriteAccounting`): what the write loop does to each lead and what it reports, as functions of the leads and of what the store answered. It holds the bookkeeping lemmas about a whole batch:
  - every lead is counted once;
  - there is one message per failure;
  - no invalid lead is written;
  - the records are written in input order.
- `lead_scraping.dfy` (`LeadScraping`):
  - the document store, as a class `LeadStore` holding the sequence of written records; a write may fail;
  - the enrichment step;
  - `BatchReport`, the dictionary `process_lead_batch` returns: the totals and write results, or the error;
  - the enrichment loop `EnrichLeads`, a method proved against `EnrichStep`;
  - the `LeadScraper` class. Its `WriteToFirestore` is an imperative loop proved against `WriteAccounting`, and `ProcessLeadBatch` dispatches on the source type, calls `EnrichLeads` and hands the batch to `WriteToFirestore`.

What the store answers is not known in advance: `LeadStore.Set` may accept or refuse any write. `WriteToFirestore` therefore returns, as a ghost value, the sequence of store answers, one per lead (`None` for a lead the store was never asked about). Its results and the records added to the store are stated as functions of the leads and of that sequence.

## Model

| member | source | states |
|---|---|---|
| PyStr.IndexOf | backend/lead_scraper.py:59 | the position of the first `@` (or the length when there is none), with no `@` before it |
| PyStr.Split | backend/lead_scraper.py:59 | `split` always yields a part, and at least two when the separator occurs, so `split('@')[1]` exists whenever `'@' in email` |
| PyStr.SplitCount | backend/lead_scraper.py:59 | a split has one more part than there are separators, and no part contains the separator |
| PyStr.SplitHead | backend/lead_scraper.py:59 | the first part is everything before the first separator |
| PyStr.SplitTail | backend/lead_scraper.py:59 | the parts after the first are the split of what follows the first separator |
| PyStr.JoinSplit | backend/lead_scraper.py:59 | joining the parts of a split with the same separator gives back the string |
| PyStr.SplitJoin | backend/lead_scraper.py:59 | splitting a join of separator-free parts gives back the parts |
| PyStr.SplitNoSep | backend/lead_scraper.py:59 | a string without the separator splits into itself alone |
| PyStr.SplitAfter | backend/lead_scraper.py:59 | `a + sep + b` with `a` separator-free splits into `a` followed by the split of `b` |
| PyStr.Join | backend/lead_scraper.py:247 | `', '.join` of a single message is that message |
| PyStr.JoinAppend | backend/lead_scraper.py:247 | joining one more part puts the separator (`', '` in the source) between the earlier parts and the new one |
| PyStr.RemoveAllSpec | backend/lead_scraper.py:78 | `replace(c, '')` removes exactly the occurrences of `c`: the length drops by their number and every other character keeps its count |
| PyStr.RemoveAllSingle | backend/lead_scraper.py:78 | a one-character string loses its character exactly when it is `c` |
| PyStr.RemoveAllConcat | backend/lead_scraper.py:78 | `replace(c, '')` distributes over concatenation |
| PyStr.RemoveAll | backend/lead_scraper.py:78 | `s.replace(c, '')`: the characters of `s` other than `c`, in order |
| PyStr.TrimStartSpec | backend/lead_scraper.py:92 | `lstrip` keeps a suffix that does not start with whitespace and drops only whitespace |
| PyStr.TrimEndSpec | backend/lead_scraper.py:92 | `rstrip` keeps a prefix that does not end with whitespace and drops only whitespace |
| PyStr.StripSpec | backend/lead_scraper.py:92 | `strip` keeps a contiguous slice with no whitespace at either end, empty exactly when the string is all whitespace |
| PyStr.TrimStart | backend/lead_scraper.py:92 | the leading-whitespace removal half of `strip` |
| PyStr.TrimEnd | backend/lead_scraper.py:92 | the trailing-whitespace removal half of `strip` |
| PyStr.Strip | backend/lead_scraper.py:92 | `s.strip()`: whitespace removed at both ends |
| PyStr.IsSpace | backend/lead_scraper.py:92 | the characters `strip` removes: the ten ASCII characters for which `str.isspace()` holds |
| LeadValidator.DomainHead | backend/lead_scraper.py:59 | the text between the first `@` and the next `@` (or the end) contains no `@` |
| LeadValidator.ValidateEmail | backend/lead_scraper.py:59 | `validate_email`: an `@` occurs and `split('@')[1]` contains a `.`; an accepted email always has an `@` |
| LeadValidator.ValidateEmailIff | backend/lead_scraper.py:59 | an email passes exactly when it has an `@` and the text between the first `@` and the next one contains a `.` |
| LeadValidator.EmailWithoutAtRejected | backend/lead_scraper.py:59 | without an `@` the email is rejected (the `and` short-circuits before indexing) |
| LeadValidator.EmailParts | backend/lead_scraper.py:59 | for `local@host` followed by nothing or another `@...`, the verdict depends only on whether `host` has a dot |
| LeadValidator.EmailSecondAtExample | backend/lead_scraper.py:59 | `a@b@c.d` is rejected |
| LeadValidator.EmailLocalDotExample | backend/lead_scraper.py:59 | `a.b@c` is rejected: a dot before the `@` does not count |
| LeadValidator.EmailAcceptedExample | backend/lead_scraper.py:59 | `a@b.c` is accepted |
| LeadValidator.StripPhone | backend/lead_scraper.py:78 | the four chained `replace` calls that remove `-`, space, `(` and `)` |
| LeadValidator.IsPhoneSeparator | backend/lead_scraper.py:78 | the four characters the phone check removes: `-`, space, `(` and `)` |
| LeadValidator.ValidatePhone | backend/lead_scraper.py:76-78 | `validate_phone`: the empty phone passes, otherwise ten or more characters must remain after removing separators; a non-empty accepted phone has at least ten characters |
| LeadValidator.StripPhoneLength | backend/lead_scraper.py:78 | removing the four separators shortens the phone by exactly its number of separators |
| LeadValidator.ValidatePhoneIff | backend/lead_scraper.py:76-78 | a phone passes exactly when it is empty or at least ten of its characters are not `-`, space, `(` or `)` |
| LeadValidator.StripPhoneConcat | backend/lead_scraper.py:78 | separator removal distributes over concatenation |
| LeadValidator.StripPhoneSeparator | backend/lead_scraper.py:78 | a lone separator is removed entirely |
| LeadValidator.StripPhoneInsertion | backend/lead_scraper.py:78 | inserting a separator anywhere leaves the stripped phone unchanged |
| LeadValidator.SeparatorInsertion | backend/lead_scraper.py:76-78 | inserting a separator anywhere into a non-empty phone never changes the verdict |
| LeadValidator.NoSeparatorsPass | backend/lead_scraper.py:76-78 | any ten or more non-separator characters pass, letters included: no digit check is made |
| LeadValidator.PhoneExamples | backend/lead_scraper.py:76-78 | `""` passes, `" "` fails and `555-1234` fails |
| LeadValidator.NameMissing | backend/lead_scraper.py:92 | the name rule: the name is empty or strips to nothing |
| LeadValidator.PhoneRejected | backend/lead_scraper.py:98 | the phone rule: a phone is given, non-empty, and fails `validate_phone` |
| LeadValidator.ValidationError.Message | backend/lead_scraper.py:93-99 | the three error texts: `Name is required`, `Invalid email format` and `Invalid phone number format` |
| LeadValidator.AppendIf | backend/lead_scraper.py:92-99 | one `if ...: errors.append(...)` step: the rule is appended exactly when it fails |
| LeadValidator.Failed | backend/lead_scraper.py:90-99 | at most three rules are reported |
| LeadValidator.LeadErrors | backend/lead_scraper.py:90-99 | the rules a lead fails, checked in the order name, email, phone |
| LeadValidator.LeadErrorsSpec | backend/lead_scraper.py:92-99 | at most three errors, each rule at most once and in the order name, email, phone. A name is reported exactly when it is empty or all whitespace. The email is reported exactly when it fails `validate_email`. The phone is reported exactly when it is present, non-empty and fails `validate_phone` |
| LeadValidator.SeparatorOnlyNameMissing | backend/lead_scraper.py:92-93 | a name consisting of U+001C alone is stripped to nothing and reported as missing |
| LeadValidator.Messages | backend/lead_scraper.py:93-99 | one message per failed rule, in the same order, with the exact texts of the source |
| LeadValidator.MessagesAppend | backend/lead_scraper.py:93-99 | proof step for `ValidateLead`: unfolds `Messages` by one appended rule |
| LeadValidator.ValidateLead | backend/lead_scraper.py:80-101 | the returned list is the messages of the failed rules in order, and `is_valid` holds exactly when the list is empty |
| LeadValidator.LeadValidIff | backend/lead_scraper.py:90-101 | a lead is valid exactly when its name has a non-whitespace character, its email passes, and its phone is absent, empty or passes |
| Leads.RecordRoundTrip | backend/lead_scraper.py:251-262 | the stored dictionary carries every field of its lead |
| Leads.ToRecord | backend/lead_scraper.py:251-259 | the dictionary built for a lead: its eight fields copied unchanged |
| WriteAccounting.CheckAll | backend/lead_scraper.py:240-243 | each lead of the batch is validated once |
| WriteAccounting.Check | backend/lead_scraper.py:243 | `validate_lead(lead)` for one lead: the lead with the messages of the rules it fails |
| WriteAccounting.CheckAt | backend/lead_scraper.py:240-243 | the i-th validation result is that of the i-th lead |
| WriteAccounting.CheckAllNext | backend/lead_scraper.py:240-243 | proof step for the write loop: unfolds `CheckAll` by one lead |
| WriteAccounting.ValidationFailure | backend/lead_scraper.py:247 | the message `Validation failed for <name>: <messages joined by ', '>` |
| WriteAccounting.WriteFailure | backend/lead_scraper.py:279 | the message `Error writing <name>: <error>` |
| WriteAccounting.Outcome | backend/lead_scraper.py:243-280 | one pass for one lead: rejected with its validation messages, else rejected with the store's error, else stored as its record |
| WriteAccounting.Count | backend/lead_scraper.py:245-280 | the counter update for one outcome: `successful += 1`, or `failed += 1` with its message appended |
| WriteAccounting.Outcomes | backend/lead_scraper.py:240-280 | one outcome per lead |
| WriteAccounting.OutcomeAt | backend/lead_scraper.py:240-280 | the i-th outcome depends only on the i-th lead and the i-th store answer |
| WriteAccounting.LeadOutcomeAt | backend/lead_scraper.py:243-280 | an invalid lead is rejected with its joined validation messages. A valid lead the store refused is rejected with the store's error. Any other lead is stored as its record |
| WriteAccounting.Tally | backend/lead_scraper.py:234-283 | `successful + failed` is the number of leads, there is one message per failure, and `successful` is the number of records written |
| WriteAccounting.Written | backend/lead_scraper.py:264-266 | the documents the loop adds: the records of the stored outcomes, in input order |
| WriteAccounting.StoredPositions | backend/lead_scraper.py:264-268 | the written records are, in order, the records of the stored leads at strictly increasing positions, and every stored lead is among them |
| WriteAccounting.OutcomesAppend | backend/lead_scraper.py:240-280 | proof step for the write loop: unfolds `Outcomes` by one lead |
| WriteAccounting.TallyAppend | backend/lead_scraper.py:245-280 | proof step for the write loop: unfolds `Tally` and `Written` by one outcome |
| WriteAccounting.WrittenAppend | backend/lead_scraper.py:264-268 | proof step for the write loop: the records for one more outcome follow those already written |
| WriteAccounting.BatchStep | backend/lead_scraper.py:240-280 | proof step for the write loop: from the results and store after `i` leads and one pass of the body, gives those after `i + 1` leads (the loop invariant's maintenance) |
| WriteAccounting.NoInvalidWritten | backend/lead_scraper.py:243-268 | every written record belongs to a lead that passed validation and whose write the store accepted, and carries that lead's fields |
| WriteAccounting.ValidAcceptedWritten | backend/lead_scraper.py:243-268 | a valid lead whose write is accepted is written |
| WriteAccounting.FailedCount | backend/lead_scraper.py:245-280 | `failed` is the number of invalid leads plus the number of refused writes |
| WriteAccounting.ToRecords | backend/lead_scraper.py:251-262 | the records of a batch, one per lead, in order |
| WriteAccounting.AllWritten | backend/lead_scraper.py:240-283 | when every lead is valid and every write is accepted, every lead is written in order and nothing fails |
| LeadScraping.LeadStore.constructor | backend/lead_scraper.py:114 | the in-memory stand-in for a new client starts with an empty collection (see "Left out") |
| LeadScraping.LeadStore.Set | backend/lead_scraper.py:264-265 | a write adds exactly the one record at the end, or raises and adds nothing |
| LeadScraping.EnrichLeadData | backend/lead_scraper.py:193-222 | only the enrichment dictionary changes. It always exists afterwards, holds every new entry, and keeps every old key whose value was not overwritten |
| LeadScraping.EnrichKeepsValidation | backend/lead_scraper.py:193-222 | enrichment never changes what validation says about a lead |
| LeadScraping.EnrichStep | backend/lead_scraper.py:310-315 | one pass of the enrichment loop: the enriched lead, or the lead unchanged when enrichment raises |
| LeadScraping.IsSupportedSource | backend/lead_scraper.py:300-305 | the source types that have a scraper: `linkedin` and `website` |
| LeadScraping.EnrichLeads | backend/lead_scraper.py:307-315 | every lead is kept, in order: enriched when the service answers, unchanged when it raises, and with the same validation result |
| LeadScraping.LeadScraper.constructor | backend/lead_scraper.py:107-116 | the scraper uses the given client, or a new empty one, and the `leads` collection |
| LeadScraping.LeadScraper.WriteLead | backend/lead_scraper.py:241-280 | one pass of the loop: the lead's outcome is counted, and its record is added to the store exactly when it is stored. A lead that fails validation gets no store answer |
| LeadScraping.LeadScraper.WriteToFirestore | backend/lead_scraper.py:224-283 | the results are the tally of the leads' outcomes and the store gains exactly their written records in input order; `successful + failed == len(leads)`, one message per failure, one record per success; the store is never asked about a lead that fails validation |
| LeadScraping.UnaskedStep | backend/lead_scraper.py:243-247 | proof step for the write loop: a lead that fails validation gets no store answer, carried from `i` leads to `i + 1` |
| LeadScraping.LeadScraper.ProcessLeadBatch | backend/lead_scraper.py:285-334 | an unsupported source type yields the error report and writes nothing. Otherwise `total_enriched == total_scraped`, every lead is enriched or kept in order, and the batch is written |

## Left out

- The scrapers `scrape_linkedin_leads` and `scrape_website_leads` do network I/O and return placeholder data. The list they return is an input of `ProcessLeadBatch`. A scraper raising, and the error report that would follow, is not modelled.
- `source_params` and the `url` it carries are used only by the scrapers and are not modelled.
- The contents of the enrichment are not modelled. The source adds a timestamp from the clock, a list of sources and the float `0.85`. The model treats enrichment as a provider that answers with a dictionary of opaque string values, or raises (`None`).
- EnrichLeadData: an enrichment that raises after the dictionary was already reset to `{}` would leave that empty dictionary on the lead. This is not modelled: a raising enrichment leaves the lead unchanged.
- EnrichLeads, ProcessLeadBatch: the enrichment service is a function `enrich: Lead -> Option<EnrichedData>`, so two equal leads in one batch get the same answer, including whether it raises. In the source each call's answer depends on the clock and may differ from call to call.
- EnrichLeadData: leads are values here. The in-place mutation of the caller's `Lead` object, and the aliasing between `leads` and `enriched_leads`, are not captured.
- LeadScraper.constructor, LeadStore.constructor: a new in-memory store starts empty, whereas `firestore.Client()` connects to an existing database whose `leads` collection may already hold documents. Nothing else depends on this: `WriteToFirestore` and `ProcessLeadBatch` are stated relative to the documents present before the call.
- The Firestore client is replaced by an in-memory sequence of records: `collection(...).document().set(...)` becomes `LeadStore.Set`, which may refuse any write. The store holds a single collection: `LeadScraper.collectionName` keeps the name `leads`, but the store does not use it. The generated document ids and the reason a write fails are not modelled.
- LeadStore.Set: the stand-in write is atomic, so a write that raises adds nothing, and this is why `|db.docs| == |old(db.docs)| + results.successful` holds. A real `set()` can raise after the document was committed (a deadline, say); the model does not capture such a write, which is stored but counted as failed.
- The `created_at` / `updated_at` values and the report's `timestamp` come from the clock and are left out of the records and reports.
- The logging calls, `main()` and the TODO lists are left out.
- `str.strip()` is modelled with the ten ASCII characters for which `str.isspace()` holds: space, tab, newline, vertical tab, form feed, carriage return and U+001C to U+001F. Non-ASCII whitespace (such as U+0085, U+00A0 or U+2003) is treated as content.
- `backend/lead_scraper.py` has no code for access rules, audit records or data retention (only TODO comments), so the model has none either.
- Every other module of the repository is not part of this model.
