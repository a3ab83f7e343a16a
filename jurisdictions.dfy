/** The jurisdiction handlers (api/jurisdictions.py): the include tokens they
    accept, the aliasing of the "state" classification to the stored value
    "government" on the way in and back on the way out, and the query they
    hand to the pagination engine. */
module Jurisdictions {
  import opened Wrappers
  import opened Sequences

  /** `JurisdictionInclude`: the closed set of include tokens. */
  datatype JurisdictionInclude = Organizations | LegislativeSessions

  function IncludeToken(i: JurisdictionInclude): string
  {
    match i
    case Organizations => "organizations"
    case LegislativeSessions => "legislative_sessions"
  }

  /** Decoding one include token; exactly the two enumeration values succeed. */
  function ParseInclude(token: string): (r: Option<JurisdictionInclude>)
    ensures r.Some? <==> token == "organizations" || token == "legislative_sessions"
    ensures r.Some? ==> IncludeToken(r.value) == token
  {
    if token == "organizations" then Some(Organizations)
    else if token == "legislative_sessions" then Some(LegislativeSessions)
    else None
  }

  /** Every include value's token decodes back to it. */
  lemma ParseIncludeToken(i: JurisdictionInclude)
    ensures ParseInclude(IncludeToken(i)) == Some(i)
  {
  }

  /** Decoding the `include` list of a request: it succeeds when every token
      is valid, and otherwise fails naming a token of the list that is not. */
  function ParseIncludes(tokens: seq<string>): (r: Result<seq<JurisdictionInclude>, string>)
    ensures r.Ok? <==> forall i :: 0 <= i < |tokens| ==> ParseInclude(tokens[i]).Some?
    ensures r.Ok? ==> |r.value| == |tokens| &&
                      forall i :: 0 <= i < |tokens| ==> ParseInclude(tokens[i]) == Some(r.value[i])
    ensures r.Err? ==> r.error in tokens && ParseInclude(r.error).None?
  {
    if tokens == [] then Ok([])
    else match ParseInclude(tokens[0])
      case None => Err(tokens[0])
      case Some(i) =>
        match ParseIncludes(tokens[1..])
        case Err(bad) => Err(bad)
        case Ok(rest) => Ok([i] + rest)
  }

  /** What the database stores for a state, and what the API shows instead. */
  const StoredState: string := "government"
  const PublicState: string := "state"

  /** The stored fields of a jurisdiction the handlers read or write. */
  datatype JurisdictionRow = JurisdictionRow(id: string, name: string, classification: string)

  /** A fetched jurisdiction object, whose classification the handlers
      overwrite in place before returning it. */
  class Jurisdiction {
    var id: string
    var name: string
    var classification: string

    constructor (row: JurisdictionRow)
      ensures Value() == row
    {
      id, name, classification := row.id, row.name, row.classification;
    }

    function Value(): JurisdictionRow
      reads this
    {
      JurisdictionRow(id, name, classification)
    }
  }

  /** The rewrite applied to each result: "government" is shown as "state". */
  function PublicClassification(c: string): (p: string)
    ensures p != StoredState
    ensures c != StoredState ==> p == c
    ensures c == StoredState ==> p == PublicState
  {
    if c == StoredState then PublicState else c
  }

  /** The fixup of one result: only its classification may change, and only
      a stored "government" does. */
  function NormalizeRow(r: JurisdictionRow): (n: JurisdictionRow)
    ensures n.classification != StoredState
    ensures r.classification == StoredState ==> n.classification == PublicState
    ensures r.classification != StoredState ==> n == r
    ensures n.id == r.id && n.name == r.name
  {
    r.(classification := PublicClassification(r.classification))
  }

  /** The list fixup on values: what every result in a page becomes. */
  function NormalizeAll(rows: seq<JurisdictionRow>): (out: seq<JurisdictionRow>)
    ensures |out| == |rows|
    ensures forall i :: 0 <= i < |rows| ==> out[i].classification != StoredState
    ensures forall i :: 0 <= i < |rows| && rows[i].classification == StoredState ==>
              out[i].classification == PublicState
    ensures forall i :: 0 <= i < |rows| && rows[i].classification != StoredState ==>
              out[i] == rows[i]
    ensures forall i :: 0 <= i < |rows| ==> out[i].id == rows[i].id && out[i].name == rows[i].name
  {
    seq(|rows|, i requires 0 <= i < |rows| => NormalizeRow(rows[i]))
  }

  /** Fixing a page up a second time changes nothing. */
  lemma NormalizeAllIdempotent(rows: seq<JurisdictionRow>)
    ensures NormalizeAll(NormalizeAll(rows)) == NormalizeAll(rows)
  {
  }

  /** The detail fixup is the list fixup: a row's entry in any page that holds
      it equals the one-element fixup of that row. */
  lemma ListAndDetailAgree(page: seq<JurisdictionRow>, i: int)
    requires 0 <= i < |page|
    ensures NormalizeAll(page)[i] == NormalizeAll([page[i]])[0]
  {
  }

  /** The request-side alias: a requested "state" is looked up as "government". */
  function StoredClassification(requested: Option<string>): (stored: Option<string>)
    ensures requested == Some(PublicState) ==> stored == Some(StoredState)
    ensures requested != Some(PublicState) ==> stored == requested
  {
    if requested == Some(PublicState) then Some(StoredState) else requested
  }

  /** Aliasing a requested classification and then rewriting the stored value
      for display gives back what was asked for, for every classification
      other than the stored-only value "government". */
  lemma ClassificationRoundTrip(requested: string)
    requires requested != StoredState
    ensures StoredClassification(Some(requested)).Some?
    ensures PublicClassification(StoredClassification(Some(requested)).value) == requested
  {
  }

  /** The fixup commutes with cutting a page: a fixed-up page is a page of
      the fixed-up answer. */
  lemma {:induction false} PageFixupIsSubsequence(page: seq<JurisdictionRow>, ordered: seq<JurisdictionRow>)
    requires IsSubsequence(page, ordered)
    ensures IsSubsequence(NormalizeAll(page), NormalizeAll(ordered))
    decreases |ordered|
  {
    if page != [] && ordered != [] {
      assert NormalizeAll(page)[1..] == NormalizeAll(page[1..]);
      assert NormalizeAll(ordered)[1..] == NormalizeAll(ordered[1..]);
      if page[0] == ordered[0] {
        PageFixupIsSubsequence(page[1..], ordered[1..]);
      } else {
        PageFixupIsSubsequence(page, ordered[1..]);
        if NormalizeAll(page)[0] == NormalizeAll(ordered)[0] {
          SubsequenceDropFront(NormalizeAll(page), NormalizeAll(ordered)[1..]);
        }
      }
    }
  }

  /** The list query: jurisdictions ordered by name, restricted to one stored
      classification when `classification` is present. */
  datatype Query = Query(classification: Option<string>)

  predicate Matches(q: Query, r: JurisdictionRow)
  {
    q.classification.None? || r.classification == q.classification.value
  }

  /** The rows of `table` the query's filter keeps, in table order. */
  function Select(q: Query, table: seq<JurisdictionRow>): (rows: seq<JurisdictionRow>)
    ensures forall r :: r in rows <==> r in table && Matches(q, r)
    ensures forall r :: multiset(rows)[r] == if Matches(q, r) then multiset(table)[r] else 0
    ensures IsSubsequence(rows, table)
  {
    if table == [] then []
    else
      var rest := Select(q, table[1..]);
      SubsequenceWeaken(rest, table[1..], table[0]);
      assert [table[0]] + table[1..] == table;
      if Matches(q, table[0]) then [table[0]] + rest else rest
  }

  /** Lexicographic order of names, by code point. */
  predicate NameAtMost(a: string, b: string)
    decreases |a|
  {
    a == [] || (b != [] && (a[0] < b[0] || (a[0] == b[0] && NameAtMost(a[1..], b[1..]))))
  }

  ghost predicate SortedByName(rows: seq<JurisdictionRow>)
  {
    forall i, j :: 0 <= i < j < |rows| ==> NameAtMost(rows[i].name, rows[j].name)
  }

  /** `ordered` is a result the store may return for `q`: the matching rows
      of `table`, each as often as they occur there, sorted by name. */
  ghost predicate IsAnswer(q: Query, table: seq<JurisdictionRow>, ordered: seq<JurisdictionRow>)
  {
    multiset(ordered) == multiset(Select(q, table)) && SortedByName(ordered)
  }

  /** The first half of `jurisdiction_list`: alias the requested
      classification, start from all jurisdictions ordered by name, and filter
      only when a (non-empty) classification was supplied. */
  method ListQuery(classification: Option<string>) returns (q: Query)
    ensures classification.None? || classification == Some("") ==> q.classification.None?
    ensures classification.Some? && classification != Some("") ==>
              q.classification == StoredClassification(classification)
  {
    var c := classification;
    if c == Some(PublicState) {
      c := Some(StoredState);
    }
    q := Query(None);
    if c.Some? && c.value != "" {
      q := Query(c);
    }
  }

  /** Without a classification every jurisdiction is listed, in name order. */
  lemma {:induction false} UnfilteredSelectsAll(table: seq<JurisdictionRow>)
    ensures Select(Query(None), table) == table
  {
    if table != [] {
      UnfilteredSelectsAll(table[1..]);
      assert [table[0]] + table[1..] == table;
    }
  }

  lemma UnfilteredListIsWholeTable(table: seq<JurisdictionRow>, ordered: seq<JurisdictionRow>)
    requires IsAnswer(Query(None), table, ordered)
    ensures multiset(ordered) == multiset(table) && SortedByName(ordered)
  {
    UnfilteredSelectsAll(table);
  }

  /** A page cut from a name-ordered answer is itself in name order. */
  lemma {:induction false} SubsequenceSortedByName(page: seq<JurisdictionRow>, ordered: seq<JurisdictionRow>)
    requires IsSubsequence(page, ordered) && SortedByName(ordered)
    ensures SortedByName(page)
    decreases |ordered|
  {
    if page != [] && ordered != [] {
      assert SortedByName(ordered[1..]) by {
        forall i, j | 0 <= i < j < |ordered[1..]|
          ensures NameAtMost(ordered[1..][i].name, ordered[1..][j].name)
        {
          assert ordered[1..][i] == ordered[i + 1] && ordered[1..][j] == ordered[j + 1];
        }
      }
      if page[0] == ordered[0] {
        SubsequenceSortedByName(page[1..], ordered[1..]);
        SubsequenceMembers(page[1..], ordered[1..]);
        forall i, j | 0 <= i < j < |page| ensures NameAtMost(page[i].name, page[j].name) {
          if i == 0 {
            assert page[j] == page[1..][j - 1];
            assert page[j] in ordered[1..];
            var m :| 0 <= m < |ordered[1..]| && ordered[1..][m] == page[j];
            assert ordered[m + 1] == page[j];
          } else {
            assert page[i] == page[1..][i - 1] && page[j] == page[1..][j - 1];
          }
        }
      } else {
        SubsequenceSortedByName(page, ordered[1..]);
      }
    }
  }

  /** The whole list path, on values: whatever page the pagination engine
      cuts from an answer to the query built for a requested classification
      other than "government", every fixed-up result reports exactly that
      classification, and the page stays in name order. With "state" this is
      the alias round trip. */
  lemma ListReportsRequestedClassification(
    requested: string, table: seq<JurisdictionRow>,
    ordered: seq<JurisdictionRow>, page: seq<JurisdictionRow>)
    requires requested != "" && requested != StoredState
    requires IsAnswer(Query(StoredClassification(Some(requested))), table, ordered)
    requires IsSubsequence(page, ordered)
    ensures forall i :: 0 <= i < |page| ==> NormalizeAll(page)[i].classification == requested
    ensures SortedByName(NormalizeAll(page))
  {
    var q := Query(StoredClassification(Some(requested)));
    SubsequenceMembers(page, ordered);
    forall i | 0 <= i < |page| ensures NormalizeAll(page)[i].classification == requested {
      assert page[i] in ordered;
      assert page[i] in multiset(Select(q, table));
      assert Matches(q, page[i]);
    }
    SubsequenceSortedByName(page, ordered);
  }

  /** The result loop of `jurisdiction_list`: every result object whose
      classification is "government" is switched to "state", in place. The
      same object may occur more than once. */
  method FixupResults(results: seq<Jurisdiction>)
    modifies results`classification
    ensures forall i :: 0 <= i < |results| ==> results[i].Value() == NormalizeRow(old(results[i].Value()))
  {
    var k := 0;
    while k < |results|
      invariant 0 <= k <= |results|
      invariant forall j :: 0 <= j < k ==>
                  results[j].classification == PublicClassification(old(results[j].classification))
      invariant forall j :: k <= j < |results| ==>
                  results[j].classification == old(results[j].classification) ||
                  results[j].classification == PublicClassification(old(results[j].classification))
    {
      var result := results[k];
      if result.classification == StoredState {
        result.classification := PublicState;
      }
      k := k + 1;
    }
  }

  /** The fixup of `jurisdiction_detail`, on the one result object. */
  method FixupDetail(result: Jurisdiction)
    modifies result`classification
    ensures result.Value() == NormalizeRow(old(result.Value()))
  {
    if result.classification == StoredState {
      result.classification := PublicState;
    }
  }
}
