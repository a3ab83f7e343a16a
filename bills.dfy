/** The bill model's computed properties (api/db/models/bills.py): the
    abbreviation taken from an OCD jurisdiction id, and the bill's session,
    jurisdiction and canonical Open States URL. Only the record fields these
    read are modelled; the jurisdiction a session belongs to is opaque here. */
module Bills {
  import opened Sequences
  import opened Strings

  datatype LegislativeSession<J> = LegislativeSession(
    identifier: string,
    jurisdictionId: string,
    jurisdiction: J)

  datatype Bill<J> = Bill(identifier: string, legislativeSession: LegislativeSession<J>)

  /** `_jid_to_abbr`: the text after the last `:` of the id, cut at its first `/`. */
  function JidToAbbr(jid: string): (abbr: string)
    ensures ':' !in abbr && '/' !in abbr
  {
    var pieces := Split(jid, ':');
    Split(pieces[|pieces| - 1], '/')[0]
  }

  /** `a` is a leading part of `t` that ends where `t` ends or at its first `/`. */
  ghost predicate IsLeadingPiece(t: string, a: string)
  {
    |a| <= |t| && a == t[..|a|] && FirstPieceEnd(t, '/', |a|)
  }

  /** Independent description of the abbreviation: it begins right after the
      last `:` of the id (or at its start) and runs to the next `/` (or the end). */
  ghost predicate IsAbbrOf(jid: string, abbr: string)
  {
    exists k :: LastPieceStart(jid, ':', k) && IsLeadingPiece(jid[k..], abbr)
  }

  /** `JidToAbbr` computes exactly the abbreviation `IsAbbrOf` describes. */
  lemma JidToAbbrCharacterised(jid: string, abbr: string)
    ensures JidToAbbr(jid) == abbr <==> IsAbbrOf(jid, abbr)
  {
    LastPieceStartExists(jid, ':');
    var k :| LastPieceStart(jid, ':', k);
    LastPiece(jid, ':', k);
    var t := jid[k..];
    FirstPieceEndExists(t, '/');
    var j :| FirstPieceEnd(t, '/', j);
    FirstPiece(t, '/', j);
    assert JidToAbbr(jid) == t[..j];
    if JidToAbbr(jid) == abbr {
      assert IsLeadingPiece(t, abbr);
    }
    if IsAbbrOf(jid, abbr) {
      var k' :| LastPieceStart(jid, ':', k') && IsLeadingPiece(jid[k'..], abbr);
      LastPieceStartUnique(jid, ':', k, k');
      FirstPieceEndUnique(t, '/', j, |abbr|);
    }
  }

  /** The abbreviation is a prefix of the text after the last `:`, hence a
      substring of the id. */
  lemma JidToAbbrIsSubstring(jid: string)
    ensures var pieces := Split(jid, ':'); JidToAbbr(jid) <= pieces[|pieces| - 1]
    ensures exists i :: 0 <= i <= |jid| && JidToAbbr(jid) <= jid[i..]
  {
    var abbr := JidToAbbr(jid);
    JidToAbbrCharacterised(jid, abbr);
    var k :| LastPieceStart(jid, ':', k) && IsLeadingPiece(jid[k..], abbr);
    LastPiece(jid, ':', k);
  }

  /** An id with neither `:` nor `/` is its own abbreviation. */
  lemma JidToAbbrFixpoint(jid: string)
    requires ':' !in jid && '/' !in jid
    ensures JidToAbbr(jid) == jid
  {
    SplitWithoutSeparator(jid, ':');
    SplitWithoutSeparator(jid, '/');
  }

  /** Taking the abbreviation twice changes nothing. */
  lemma JidToAbbrIdempotent(jid: string)
    ensures JidToAbbr(JidToAbbr(jid)) == JidToAbbr(jid)
  {
    JidToAbbrFixpoint(JidToAbbr(jid));
  }

  /** The state jurisdiction id of North Carolina gives "nc". */
  lemma JidToAbbrExample()
    ensures JidToAbbr("ocd-jurisdiction/country:us/state:nc/government") == "nc"
  {
    var jid := "ocd-jurisdiction/country:us/state:nc/government";
    assert jid[33] == ':';
    assert jid[34..] == "nc/government";
    assert LastPieceStart(jid, ':', 34);
    assert IsLeadingPiece(jid[34..], "nc");
    JidToAbbrCharacterised(jid, "nc");
  }

  /** `Bill.session`: the identifier of the bill's legislative session. */
  function Session<J>(b: Bill<J>): (session: string)
    ensures session == b.legislativeSession.identifier
  {
    b.legislativeSession.identifier
  }

  /** `Bill.jurisdiction`: the jurisdiction of the bill's legislative session. */
  function Jurisdiction<J>(b: Bill<J>): (j: J)
    ensures j == b.legislativeSession.jurisdiction
  {
    b.legislativeSession.jurisdiction
  }

  const OpenstatesHost: string := "openstates.org"

  /** `Bill.openstates_url`: the state abbreviation, the session and the bill
      identifier with its spaces removed, as path segments of openstates.org. */
  function OpenstatesUrl<J>(b: Bill<J>): (url: string)
    ensures "https://openstates.org/" <= url
    ensures var identifier := Remove(b.identifier, ' ');
            |identifier| + 1 <= |url| && url[|url| - |identifier| - 1..] == identifier + "/"
  {
    var abbr := JidToAbbr(b.legislativeSession.jurisdictionId);
    var identifier := Remove(b.identifier, ' ');
    "https://" + OpenstatesHost + "/" + abbr + "/bills/" + Session(b) + "/" + identifier + "/"
  }

  /** Five leading pieces without `/`, joined by `/` in front of `rest`, come
      off `rest`'s own pieces one by one. */
  lemma SplitFivePieces(p1: string, p2: string, p3: string, p4: string, p5: string, rest: string)
    requires '/' !in p1 && '/' !in p2 && '/' !in p3 && '/' !in p4 && '/' !in p5
    ensures Split(p1 + "/" + p2 + "/" + p3 + "/" + p4 + "/" + p5 + "/" + rest, '/')
            == [p1, p2, p3, p4, p5] + Split(rest, '/')
  {
    var e5 := p5 + ['/'] + rest;
    var e4 := p4 + ['/'] + e5;
    var e3 := p3 + ['/'] + e4;
    var e2 := p2 + ['/'] + e3;
    assert p1 + "/" + p2 + "/" + p3 + "/" + p4 + "/" + p5 + "/" + rest == p1 + ['/'] + e2;
    SplitFirstOff(p5, rest, '/');
    SplitFirstOff(p4, e5, '/');
    SplitFirstOff(p3, e4, '/');
    SplitFirstOff(p2, e3, '/');
    SplitFirstOff(p1, e2, '/');
  }

  /** The URL's text, regrouped as five leading parts joined by `/`. */
  lemma UrlLayout(abbr: string, session: string, identifier: string)
    ensures "https://" + OpenstatesHost + "/" + abbr + "/bills/" + session + "/" + identifier + "/"
            == "https:" + "/" + "" + "/" + "openstates.org" + "/" + abbr + "/" + "bills" + "/" +
               (session + "/" + identifier + "/")
  {
    assert "https://" + OpenstatesHost + "/" == "https:" + "/" + "" + "/" + "openstates.org" + "/";
    assert "/bills/" == "/" + "bills" + "/";
  }

  /** The URL, cut at its slashes: scheme, the empty piece between the two
      slashes after it, host, abbreviation and "bills", then the pieces of
      what the session and identifier give. */
  lemma UrlSegments<J>(b: Bill<J>)
    ensures var abbr := JidToAbbr(b.legislativeSession.jurisdictionId);
            var rest := Session(b) + "/" + Remove(b.identifier, ' ') + "/";
            Split(OpenstatesUrl(b), '/') == ["https:", "", "openstates.org", abbr, "bills"] + Split(rest, '/')
  {
    var abbr := JidToAbbr(b.legislativeSession.jurisdictionId);
    var identifier := Remove(b.identifier, ' ');
    UrlLayout(abbr, Session(b), identifier);
    SplitFivePieces("https:", "", "openstates.org", abbr, "bills", Session(b) + "/" + identifier + "/");
  }

  /** When neither the session nor the identifier holds a `/`, the URL splits
      into exactly its eight parts, so every part can be read back. */
  lemma UrlRoundTrip<J>(b: Bill<J>)
    requires '/' !in Session(b) && '/' !in b.identifier
    ensures Split(OpenstatesUrl(b), '/') ==
            ["https:", "", "openstates.org", JidToAbbr(b.legislativeSession.jurisdictionId),
             "bills", Session(b), Remove(b.identifier, ' '), ""]
  {
    UrlSegments(b);
    var identifier := Remove(b.identifier, ' ');
    SubsequenceMembers(identifier, b.identifier);
    assert '/' !in identifier;
    assert identifier + "/" == identifier + ['/'] + "";
    SplitFirstOff(identifier, "", '/');
    assert Split("", '/') == [""];
    SplitFirstOff(Session(b), identifier + "/", '/');
    assert Session(b) + "/" + identifier + "/" == Session(b) + ['/'] + (identifier + "/");
  }

  /** The identifier segment of the URL is the bill identifier with exactly its
      spaces deleted and every other character kept, in order. */
  lemma UrlIdentifier<J>(b: Bill<J>)
    ensures var identifier := Remove(b.identifier, ' ');
            ' ' !in identifier && IsSubsequence(identifier, b.identifier) &&
            |identifier| == |b.identifier| - Count(b.identifier, ' ') &&
            OpenstatesUrl(b)[|OpenstatesUrl(b)| - |identifier| - 1..] == identifier + "/"
  {
  }
}
