/** Encoding parts as a multipart body, and parsing them back. */
module MultipartBody {
  import opened Bytes
  import opened MultipartSpec
  import opened Multipart
  import opened MultipartProps

  datatype Header = Header(name: seq<byte>, value: seq<byte>)

  datatype Part = Part(headers: seq<Header>, data: seq<byte>)

  predicate GoodHeader(h: Header) {
    && (forall i :: 0 <= i < |h.name| ==> h.name[i] == 45 || 65 <= h.name[i] <= 90 || 97 <= h.name[i] <= 122)
    && 13 !in h.value
  }

  predicate GoodPart(boundary: seq<byte>, p: Part) {
    (forall i :: 0 <= i < |p.headers| ==> GoodHeader(p.headers[i])) && CleanData(boundary, p.data)
  }

  /** Data without CR can always be sent. */
  lemma PlainGood(boundary: seq<byte>, data: seq<byte>)
    requires CR !in data
    ensures GoodPart(boundary, Part([], data))
  {
    var d, all := Delimiter(boundary), data + Delimiter(boundary);
    forall i | 0 <= i < |all| ensures !EndsWith(all[..i], d) {
      assert i >= |d| ==> all[..i][i - |d|..][0] == all[i - |d|] == data[i - |d|] && d[0] == CR;
    }
  }

  function EncodeHeader(h: Header): seq<byte> {
    h.name + ([58, 32] + (h.value + [13, 10]))
  }

  function EncodeHeaders(hs: seq<Header>): seq<byte> {
    if hs == [] then [13, 10] else EncodeHeader(hs[0]) + EncodeHeaders(hs[1..])
  }

  function EncodePart(boundary: seq<byte>, p: Part): seq<byte> {
    EncodeHeaders(p.headers) + (p.data + ([13, 10] + boundary))
  }

  function EncodeParts(boundary: seq<byte>, ps: seq<Part>): seq<byte>
    requires ps != []
  {
    EncodePart(boundary, ps[0])
    + if |ps| == 1 then [45, 45] else [13, 10] + EncodeParts(boundary, ps[1..])
  }

  function EncodeBody(boundary: seq<byte>, ps: seq<Part>): seq<byte>
    requires ps != []
  {
    (boundary + [13, 10]) + EncodeParts(boundary, ps)
  }

  /** What should be reported after the first part has begun. */
  function PartTokens(ps: seq<Part>): seq<Token> {
    if ps == [] then []
    else ([HeadersComplete] + (AsData(ps[0].data) + [PartEnd]))
         + if |ps| == 1 then [BodyEnd] else [PartBegin] + PartTokens(ps[1..])
  }

  /** From m, the bytes s are accepted with these tokens, ending in n. */
  predicate Leads(boundary: seq<byte>, m: Control, s: seq<byte>, n: Control, t: seq<Token>) {
    ValidControl(boundary, m) && ValidControl(boundary, n) && Run(boundary, m, s) == Outcome(n, t, 0)
  }

  lemma LeadsThen(boundary: seq<byte>, m: Control, a: seq<byte>, n: Control, t: seq<Token>, b: seq<byte>, k: Control,
                  u: seq<Token>)
    requires Leads(boundary, m, a, n, t) && Leads(boundary, n, b, k, u)
    ensures Leads(boundary, m, a + b, k, t + u)
  {
    hide Next;
    RunAppend(boundary, m, a, b);
  }

  lemma LeadsOne(boundary: seq<byte>, m: Control, c: byte, n: Control, t: seq<Token>)
    requires ValidControl(boundary, m) && Next(boundary, m, c) == Accept(n, t)
    ensures Leads(boundary, m, [c], n, t)
  {
    RunStep(boundary, m, [c]);
    RunNothing(boundary, n);
    hide Next, Run;
    assert [c][1..] == [];
  }

  lemma LeadsTwo(boundary: seq<byte>, m: Control, c: byte, n: Control, d: byte, k: Control, t: seq<Token>)
    requires ValidControl(boundary, m) && ValidControl(boundary, n)
    requires Next(boundary, m, c) == Accept(n, []) && Next(boundary, n, d) == Accept(k, t)
    ensures Leads(boundary, m, [c, d], k, t)
  {
    LeadsOne(boundary, m, c, n, []);
    LeadsOne(boundary, n, d, k, t);
    LeadsThen(boundary, m, [c], n, [], [d], k, t);
    assert [c] + [d] == [c, d] && [] + t == t;
  }

  lemma {:induction false} NameLeads(boundary: seq<byte>, i: nat, name: seq<byte>)
    requires 0 < |boundary| && forall k :: 0 <= k < |name| ==> IsNameChar(name[k])
    ensures Leads(boundary, Control(HeaderField, i), name, Control(HeaderField, i), [])
    decreases |name|
  {
    var m := Control(HeaderField, i);
    if name == [] {
      RunNothing(boundary, m);
    } else {
      LeadsOne(boundary, m, name[0], m, []);
      NameLeads(boundary, i, name[1..]);
      LeadsThen(boundary, m, [name[0]], m, [], name[1..], m, []);
      assert [name[0]] + name[1..] == name;
    }
  }

  lemma {:induction false} ValueLeads(boundary: seq<byte>, i: nat, value: seq<byte>)
    requires 0 < |boundary| && CR !in value
    ensures Leads(boundary, Control(HeaderValue, i), value, Control(HeaderValue, i), [])
    decreases |value|
  {
    var m := Control(HeaderValue, i);
    if value == [] {
      RunNothing(boundary, m);
    } else {
      LeadsOne(boundary, m, value[0], m, []);
      ValueLeads(boundary, i, value[1..]);
      LeadsThen(boundary, m, [value[0]], m, [], value[1..], m, []);
      assert [value[0]] + value[1..] == value;
    }
  }

  /** A header value up to its line end, with or without leading spaces. */
  lemma {:induction false} ValueLineLeads(boundary: seq<byte>, i: nat, value: seq<byte>)
    requires 0 < |boundary| && CR !in value
    ensures Leads(boundary, Control(HeaderValueStart, i), value + [CR], Control(HeaderValueAlmostDone, i), [])
    decreases |value|
  {
    var m, n := Control(HeaderValueStart, i), Control(HeaderValueAlmostDone, i);
    if value == [] {
      LeadsOne(boundary, m, CR, n, []);
      assert value + [CR] == [CR];
    } else if value[0] == SPACE {
      LeadsOne(boundary, m, SPACE, m, []);
      ValueLineLeads(boundary, i, value[1..]);
      LeadsThen(boundary, m, [SPACE], m, [], value[1..] + [CR], n, []);
      assert [SPACE] + (value[1..] + [CR]) == value + [CR];
    } else {
      var v := Control(HeaderValue, i);
      LeadsOne(boundary, m, value[0], v, []);
      ValueLeads(boundary, i, value[1..]);
      LeadsOne(boundary, v, CR, n, []);
      LeadsThen(boundary, v, value[1..], v, [], [CR], n, []);
      LeadsThen(boundary, m, [value[0]], v, [], value[1..] + [CR], n, []);
      assert [value[0]] + (value[1..] + [CR]) == value + [CR];
    }
  }

  /** The states before and inside a header name react alike. */
  lemma FieldStartLeads(boundary: seq<byte>, i: nat, s: seq<byte>, n: Control, t: seq<Token>)
    requires s != [] && Leads(boundary, Control(HeaderField, i), s, n, t)
    ensures Leads(boundary, Control(HeaderFieldStart, i), s, n, t)
  {
    assert Next(boundary, Control(HeaderFieldStart, i), s[0]) == Next(boundary, Control(HeaderField, i), s[0]);
    hide Next;
  }

  lemma HeaderLeads(boundary: seq<byte>, i: nat, h: Header)
    requires 0 < |boundary| && GoodHeader(h)
    ensures Leads(boundary, Control(HeaderFieldStart, i), EncodeHeader(h), Control(HeaderFieldStart, i), [])
  {
    var start, field := Control(HeaderFieldStart, i), Control(HeaderField, i);
    var value, line := Control(HeaderValueStart, i), Control(HeaderValueAlmostDone, i);
    NameLeads(boundary, i, h.name);
    LeadsTwo(boundary, field, COLON, value, SPACE, value, []);
    ValueLineLeads(boundary, i, h.value);
    LeadsOne(boundary, line, LF, start, []);
    hide Leads, GoodHeader;
    LeadsThen(boundary, value, h.value + [CR], line, [], [LF], start, []);
    assert h.value + [CR] + [LF] == h.value + [CR, LF];
    LeadsThen(boundary, field, [COLON, SPACE], value, [], h.value + [CR, LF], start, []);
    LeadsThen(boundary, field, h.name, field, [], [COLON, SPACE] + (h.value + [CR, LF]), start, []);
    FieldStartLeads(boundary, i, EncodeHeader(h), start, []);
  }

  lemma {:induction false} HeadersLeads(boundary: seq<byte>, i: nat, hs: seq<Header>)
    requires 0 < |boundary| && forall k :: 0 <= k < |hs| ==> GoodHeader(hs[k])
    ensures Leads(boundary, Control(HeaderFieldStart, i), EncodeHeaders(hs), Control(PartDataStart, i), [])
    decreases |hs|
  {
    var start, done := Control(HeaderFieldStart, i), Control(PartDataStart, i);
    if hs == [] {
      LeadsTwo(boundary, start, CR, Control(HeadersAlmostDone, i), LF, done, []);
    } else {
      HeaderLeads(boundary, i, hs[0]);
      HeadersLeads(boundary, i, hs[1..]);
      LeadsThen(boundary, start, EncodeHeader(hs[0]), start, [], EncodeHeaders(hs[1..]), done, []);
    }
  }

  /** The data of a part, with the notification that comes before it. */
  lemma DataLeads(boundary: seq<byte>, i: nat, data: seq<byte>)
    requires 0 < |boundary| && CR !in boundary && CleanData(boundary, data)
    ensures Leads(boundary, Control(PartDataStart, i), data + Delimiter(boundary),
                  Control(PartDataAlmostEnd, |boundary|), [HeadersComplete] + (AsData(data) + [PartEnd]))
  {
    PartDataExact(boundary, i, data);
    var s := data + Delimiter(boundary);
    RunAgain(boundary, Control(PartDataStart, i), Control(PartData, i), [HeadersComplete], s);
  }

  lemma PartLeads(boundary: seq<byte>, i: nat, p: Part)
    requires 0 < |boundary| && CR !in boundary && GoodPart(boundary, p)
    ensures Leads(boundary, Control(HeaderFieldStart, i), EncodePart(boundary, p),
                  Control(PartDataAlmostEnd, |boundary|), [HeadersComplete] + (AsData(p.data) + [PartEnd]))
  {
    HeadersLeads(boundary, i, p.headers);
    DataLeads(boundary, i, p.data);
    hide Leads, Delimiter;
    var t := [HeadersComplete] + (AsData(p.data) + [PartEnd]);
    LeadsThen(boundary, Control(HeaderFieldStart, i), EncodeHeaders(p.headers), Control(PartDataStart, i), [],
              p.data + Delimiter(boundary), Control(PartDataAlmostEnd, |boundary|), t);
    assert [] + t == t;
  }

  lemma {:induction false} PartsLead(boundary: seq<byte>, i: nat, ps: seq<Part>)
    requires 0 < |boundary| && CR !in boundary && ps != [] && forall k :: 0 <= k < |ps| ==> GoodPart(boundary, ps[k])
    ensures Leads(boundary, Control(HeaderFieldStart, i), EncodeParts(boundary, ps), Control(End, |boundary|),
                  PartTokens(ps))
    decreases |ps|
  {
    var start, n := Control(HeaderFieldStart, i), |boundary|;
    var ended, next := Control(PartDataAlmostEnd, n), Control(HeaderFieldStart, n);
    var t := [HeadersComplete] + (AsData(ps[0].data) + [PartEnd]);
    PartLeads(boundary, i, ps[0]);
    if |ps| == 1 {
      LeadsTwo(boundary, ended, HYPHEN, Control(PartDataFinalHyphen, n), HYPHEN, Control(End, n), [BodyEnd]);
      hide Leads;
      LeadsThen(boundary, start, EncodePart(boundary, ps[0]), ended, t, [HYPHEN, HYPHEN], Control(End, n), [BodyEnd]);
    } else {
      LeadsTwo(boundary, ended, CR, Control(PartDataEnd, n), LF, next, [PartBegin]);
      PartsLead(boundary, n, ps[1..]);
      hide Leads;
      LeadsThen(boundary, ended, [CR, LF], next, [PartBegin], EncodeParts(boundary, ps[1..]), Control(End, n),
                PartTokens(ps[1..]));
      LeadsThen(boundary, start, EncodePart(boundary, ps[0]), ended, t, [CR, LF] + EncodeParts(boundary, ps[1..]),
                Control(End, n), [PartBegin] + PartTokens(ps[1..]));
    }
  }

  lemma {:induction false} BoundaryLeads(boundary: seq<byte>, k: nat)
    requires 0 < |boundary| && k <= |boundary|
    ensures Leads(boundary, Control(StartBoundary, k), boundary[k..], Control(StartBoundary, |boundary|), [])
    decreases |boundary| - k
  {
    var m, n := Control(StartBoundary, k), Control(StartBoundary, |boundary|);
    if k == |boundary| {
      RunNothing(boundary, m);
      assert boundary[k..] == [];
    } else {
      LeadsOne(boundary, m, boundary[k], Control(StartBoundary, k + 1), []);
      BoundaryLeads(boundary, k + 1);
      LeadsThen(boundary, m, [boundary[k]], Control(StartBoundary, k + 1), [], boundary[k + 1..], n, []);
      assert [boundary[k]] + boundary[k + 1..] == boundary[k..];
    }
  }

  /** Every well-formed body is accepted and yields exactly its parts. */
  lemma BodyRoundTrip(boundary: seq<byte>, ps: seq<Part>)
    requires 0 < |boundary| && CR !in boundary && ps != [] && forall k :: 0 <= k < |ps| ==> GoodPart(boundary, ps[k])
    ensures Leads(boundary, Control(Start, 0), EncodeBody(boundary, ps), Control(End, |boundary|),
                  [PartBegin] + PartTokens(ps))
  {
    var header, end := Control(HeaderFieldStart, 0), Control(End, |boundary|);
    FirstLineLeads(boundary);
    PartsLead(boundary, 0, ps);
    hide Leads, GoodPart;
    LeadsThen(boundary, Control(StartBoundary, 0), boundary + [CR, LF], header, [PartBegin], EncodeParts(boundary, ps),
              end, PartTokens(ps));
    StartLeads(boundary, EncodeBody(boundary, ps), end, [PartBegin] + PartTokens(ps));
  }

  lemma FirstLineLeads(boundary: seq<byte>)
    requires 0 < |boundary|
    ensures Leads(boundary, Control(StartBoundary, 0), boundary + [CR, LF], Control(HeaderFieldStart, 0), [PartBegin])
  {
    var zero, n, header := Control(StartBoundary, 0), Control(StartBoundary, |boundary|), Control(HeaderFieldStart, 0);
    BoundaryLeads(boundary, 0);
    LeadsTwo(boundary, n, CR, Control(StartBoundary, |boundary| + 1), LF, header, [PartBegin]);
    hide Leads, Next;
    assert boundary[0..] == boundary;
    LeadsThen(boundary, zero, boundary, n, [], [CR, LF], header, [PartBegin]);
    assert [] + [PartBegin] == [PartBegin];
  }

  lemma StartLeads(boundary: seq<byte>, s: seq<byte>, n: Control, t: seq<Token>)
    requires s != [] && Leads(boundary, Control(StartBoundary, 0), s, n, t)
    ensures Leads(boundary, Control(Start, 0), s, n, t)
  {
    assert Next(boundary, Control(Start, 0), s[0]) == Next(boundary, Control(StartBoundary, 0), s[0]);
    hide Next;
  }

  /** However a well-formed body arrives, a fresh parser whose callbacks succeed
      accepts it and reports exactly its parts. */
  method ParseBody(boundary: seq<byte>, ps: seq<Part>, fragments: seq<seq<byte>>)
    returns (events: seq<Event>, accepted: bool)
    requires 0 < |boundary| && CR !in boundary && ps != [] && forall k :: 0 <= k < |ps| ==> GoodPart(boundary, ps[k])
    requires Concat(fragments) == EncodeBody(boundary, ps)
    ensures accepted && Tokens(events) == [PartBegin] + PartTokens(ps)
  {
    BodyRoundTrip(boundary, ps);
    var p := new Parser(boundary, _ => true);
    accepted := Feed(p, fragments);
    events := p.events;
  }
}
