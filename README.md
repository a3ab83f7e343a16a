# Open States API v3: bill URL helpers and jurisdiction classification aliasing

This project models two pieces of the read-only civic-data API in Dafny:

- The bill model's computed properties (`api/db/models/bills.py`):
  - `_jid_to_abbr` takes the state abbreviation out of an OCD jurisdiction id: the text after the last `:`, cut at its first `/`.
  - `Bill.session` and `Bill.jurisdiction` delegate to the bill's legislative session.
  - `Bill.openstates_url` builds `https://openstates.org/<abbr>/bills/<session>/<identifier without spaces>/`.
- The jurisdiction handlers (`api/jurisdictions.py`):
  - the closed `JurisdictionInclude` enumeration;
  - the request-side alias, where a requested classification `"state"` is looked up as the stored value `"government"`;
  - the name-ordered query, filtered only when a classification is supplied;
  - the in-place fixup that shows every `"government"` result as `"state"`. This runs in the list handler's loop and on the detail handler's single result.

Modules:

- `Strings` models Python's `str.split(sep)` and `str.replace(c, "")` for one-character arguments. `split` is paired with its inverse, `Join`.
- `Sequences` defines order-preserving subsequences.
- `Wrappers` holds `Option` and `Result`.
- `Bills` and `Jurisdictions` follow the two source files.
- Result objects are a class (`Jurisdictions.Jurisdiction`) whose `classification` field the fixup methods overwrite. Their frames (`modifies results`classification`) let only that field change.

The pagination engine is not part of this model. Its results are described abstractly:
- `IsAnswer` is any name-ordered arrangement of the rows the filter keeps.
- A page is any subsequence of such an answer.

## Model

| member | source | states |
|---|---|---|
| `Strings.Split` | api/db/models/bills.py:14 | `s.split(sep)` always has at least one piece, no piece holds the separator, and every character of a piece comes from `s` |
| `Strings.JoinSplit` | api/db/models/bills.py:14 | joining the pieces of `s.split(sep)` with `sep` gives `s` back |
| `Strings.SplitJoin` | api/db/models/bills.py:14 | splitting a join of separator-free pieces gives the pieces back |
| `Strings.LastPiece` | api/db/models/bills.py:14 | the last piece of a split (`[-1]`) is the text after the last separator |
| `Strings.FirstPiece` | api/db/models/bills.py:14 | the first piece of a split (`[0]`) is the text before the first separator |
| `Strings.Remove` | api/db/models/bills.py:61 | `s.replace(c, "")` has no `c`, is a subsequence of `s`, and is shorter by exactly the number of `c`s |
| `Strings.RemoveCharacterised` | api/db/models/bills.py:61 | a string equals `s.replace(c, "")` if and only if it is a subsequence of `s` without `c` that keeps every other character |
| `Bills.JidToAbbr` | api/db/models/bills.py:12-14 | the abbreviation holds neither `:` nor `/` |
| `Bills.JidToAbbrCharacterised` | api/db/models/bills.py:14 | the result equals `a` if and only if `a` starts right after the last `:` (or at the start) and ends at the next `/` (or the end) |
| `Bills.JidToAbbrIsSubstring` | api/db/models/bills.py:14 | the abbreviation is a prefix of the segment after the last `:`, and so a substring of the id |
| `Bills.JidToAbbrFixpoint` | api/db/models/bills.py:14 | an id with neither `:` nor `/` maps to itself |
| `Bills.JidToAbbrIdempotent` | api/db/models/bills.py:14 | applying it to its own result returns that result |
| `Bills.JidToAbbrExample` | api/db/models/bills.py:14 | `ocd-jurisdiction/country:us/state:nc/government` maps to `nc` |
| `Bills.Session` | api/db/models/bills.py:54-56 | a bill's session is its legislative session's identifier |
| `Bills.Jurisdiction` | api/db/models/bills.py:50-52 | a bill's jurisdiction is its legislative session's jurisdiction |
| `Bills.OpenstatesUrl` | api/db/models/bills.py:58-62 | the URL starts with `https://openstates.org/` and ends with the identifier without spaces followed by `/`; `UrlSegments`, `UrlRoundTrip` and `UrlIdentifier` pin down the rest |
| `Bills.UrlSegments` | api/db/models/bills.py:58-62 | split at `/`, the URL reads `https:`, empty, `openstates.org`, the abbreviation of the session's jurisdiction id, `bills`, and then the pieces of session and identifier |
| `Bills.UrlRoundTrip` | api/db/models/bills.py:58-62 | when session and identifier have no `/`, the URL splits into exactly the abbreviation, the session and the identifier without spaces, between the fixed parts and a final empty piece |
| `Bills.UrlIdentifier` | api/db/models/bills.py:61-62 | the URL ends with the identifier and then `/`, where the identifier has its spaces deleted and every other character kept in order |
| `Jurisdictions.ParseInclude` | api/jurisdictions.py:11-13 | exactly `organizations` and `legislative_sessions` decode, each to the value whose token it is |
| `Jurisdictions.ParseIncludes` | api/jurisdictions.py:35-37 | an include list decodes if and only if every token is valid, element by element; otherwise it fails and names an invalid token from the list |
| `Jurisdictions.StoredClassification` | api/jurisdictions.py:46-47 | a requested `state` becomes `government`; every other request, including none, passes through unchanged |
| `Jurisdictions.ListQuery` | api/jurisdictions.py:45-52 | the query filters on the aliased classification when one was supplied and is non-empty; otherwise it has no filter |
| `Jurisdictions.Select` | api/jurisdictions.py:51-52 | the filter keeps a row if and only if it matches; it keeps every copy of a matching row and none of another, in table order |
| `Jurisdictions.UnfilteredListIsWholeTable` | api/jurisdictions.py:48-52 | with no filter, an answer is every jurisdiction of the table, in name order |
| `Jurisdictions.SubsequenceSortedByName` | api/jurisdictions.py:48-54 | any page cut from a name-ordered answer is in name order |
| `Jurisdictions.PublicClassification` | api/jurisdictions.py:58-59 | the shown classification is never `government`: `government` becomes `state`, and anything else is kept |
| `Jurisdictions.NormalizeRow` | api/jurisdictions.py:58-59 | one result after the fixup: never `government`, `government` becomes `state`, any other row is kept as it is, and id and name never change |
| `Jurisdictions.NormalizeAll` | api/jurisdictions.py:57-59 | after the fixup there is no `government`; former `government` rows read `state`; the fixup keeps count and order, ids, names, and rows that were not `government` |
| `Jurisdictions.NormalizeAllIdempotent` | api/jurisdictions.py:57-59 | applying the fixup twice equals applying it once |
| `Jurisdictions.PageFixupIsSubsequence` | api/jurisdictions.py:54-59 | fixing up a page cut from an answer gives a page of the fixed-up answer |
| `Jurisdictions.ListAndDetailAgree` | api/jurisdictions.py:85-86 | a row's entry in a fixed-up page equals that row's one-element fixup |
| `Jurisdictions.ClassificationRoundTrip` | api/jurisdictions.py:46-59 | aliasing a requested classification and then applying the fixup gives the request back, for every value other than `government` |
| `Jurisdictions.ListReportsRequestedClassification` | api/jurisdictions.py:46-59 | for a request such as `state`, every fixed-up result of any page of the filtered answer reports exactly that classification, in name order |
| `Jurisdictions.FixupResults` | api/jurisdictions.py:57-59 | in place, each result object becomes its fixed-up value, even when an object occurs twice; only `classification` fields may change |
| `Jurisdictions.FixupDetail` | api/jurisdictions.py:84-87 | in place, the detail result becomes its fixed-up value; only its `classification` may change |

## Left out

- `@lru_cache` on `_jid_to_abbr`: it memoises a pure function and does not change any result.
- ORM declarations of `Bill` and its sub-entities (columns, relationships, `SearchableBill`, `TSVECTOR`, JSONB and date-time columns). These are schema mapping with no behaviour. Only the fields the modelled functions read are kept.
- `Bills.Jurisdiction`: the jurisdiction record reached through the session is a type parameter. `Bill.jurisdiction` only hands it on.
- `Pagination.paginate` and `Pagination.detail`: `api/pagination.py` is not part of this model. A page is modelled as any subsequence of a name-ordered answer. The detail result is any single row. No offset, count or include loading is modelled.
- `jurisdiction_filter`, the id filter of the detail handler: `api/utils` is not part of this model.
- `Jurisdictions.SortedByName`: the database's collation is modelled as code-point order of names.
- `Jurisdictions.ListQuery`: the values of `JurisdictionClassification` come from `api/schemas`, which is not part of this model. Any string may be requested. Following Python truthiness, an empty value applies no filter.
- `Jurisdictions.ParseIncludes`: this models the decoding that the framework performs for the `List[JurisdictionInclude]` parameter type. It names one invalid token, not every one. `Result` carries no HTTP status.
- Other columns of the jurisdiction table: the fixup only touches `classification`. `id` and `name` stand in for the fields it must leave alone.
- FastAPI routing, `Depends`, `Query` metadata, `response_model_exclude_none` and `apikey_auth`: framework glue and authentication.
- `async` handlers, the database session and query execution: I/O and concurrency.
- Include tokens are checked only when the framework decodes the `JurisdictionInclude` parameter. These files define no error type of their own, and the two fixups are written inline, as modelled.
- Nullable columns are modelled as always present. `Bill.identifier`, the session's `jurisdiction_id` and a jurisdiction's `classification` are plain strings here. The `AttributeError` that `replace` or `split` raises on a NULL identifier or id is not modelled. Neither is a NULL classification passing through the fixup unchanged.
