/**
 * The fact record of main.go (`Message`) and the two loops that fill it for
 * one fetched message: the names of the labels already on it, then the
 * sender, recipients and subject from its headers.
 */
module Facts {
  import opened Gmail
  import opened Labels
  import opened Address

  /** The record handed to the user's script. `To`, `ToPart` and `ToDomain` run in parallel. */
  datatype Message = Message(
    to: seq<string>, toPart: seq<string>, toDomain: seq<string>,
    from: string, fromPart: string, fromDomain: string,
    subject: string,
    labels: seq<string>)

  /** Go's zero `Message`. */
  const Blank: Message := Message([], [], [], "", "", "", "", [])

  /** One header of the fetched message, as the metadata format returns it. */
  datatype Header = Header(name: string, value: string)

  /** Names are compared exactly: "from" or "FROM" is not a sender header. */
  predicate IsSender(h: Header)
  {
    h.name == "From" && '@' in h.value
  }

  predicate IsRecipientList(h: Header)
  {
    (h.name == "To" || h.name == "Cc") && '@' in h.value
  }

  predicate IsSubject(h: Header)
  {
    h.name == "Subject"
  }

  /** The comma-separated pieces of a recipient header, each parsed on its own; none for other headers. */
  function Pieces(h: Header): seq<string>
  {
    if IsRecipientList(h) then Split(h.value, ',') else []
  }

  /** Every address the loop will parse does parse: otherwise the Go code dereferences nil or indexes past the end. */
  predicate HeaderParses(parse: MailParser, h: Header)
  {
    && (IsSender(h) ==> Parses(parse, h.value))
    && (forall p | p in Pieces(h) :: Parses(parse, p))
  }

  predicate AllParse(parse: MailParser, hs: seq<Header>)
  {
    forall k | 0 <= k < |hs| :: HeaderParses(parse, hs[k])
  }

  /** The inner loop: append one recipient per piece, in order, to the three parallel columns. */
  function AddRecipients(data: Message, pieces: seq<string>, parse: MailParser): (r: Message)
    requires forall p | p in pieces :: Parses(parse, p)
    ensures r.(to := data.to, toPart := data.toPart, toDomain := data.toDomain) == data
    ensures |r.to| == |data.to| + |pieces| && r.to[..|data.to|] == data.to
    ensures |r.toPart| == |data.toPart| + |pieces| && r.toPart[..|data.toPart|] == data.toPart
    ensures |r.toDomain| == |data.toDomain| + |pieces| && r.toDomain[..|data.toDomain|] == data.toDomain
    ensures forall k | 0 <= k < |pieces| ::
      (r.to[|data.to| + k], r.toPart[|data.toPart| + k], r.toDomain[|data.toDomain| + k])
        == ParseAddress(parse, pieces[k])
    decreases |pieces|
  {
    if pieces == [] then data
    else
      var n := |pieces| - 1;
      var d := AddRecipients(data, pieces[..n], parse);
      var (to, part, domain) := ParseAddress(parse, pieces[n]);
      d.(to := d.to + [to], toPart := d.toPart + [part], toDomain := d.toDomain + [domain])
  }

  /** One turn of the header loop. Headers other than From, To, Cc and Subject change nothing. */
  function ApplyHeader(data: Message, h: Header, parse: MailParser): (r: Message)
    requires HeaderParses(parse, h)
    ensures r.labels == data.labels
    ensures h.name !in {"From", "To", "Cc", "Subject"} ==> r == data
  {
    var sent :=
      if IsSender(h) then
        var (from, part, domain) := ParseAddress(parse, h.value);
        data.(from := from, fromPart := part, fromDomain := domain)
      else data;
    var received := AddRecipients(sent, Pieces(h), parse);
    if IsSubject(h) then received.(subject := h.value) else received
  }

  /** The header loop: the headers applied in order. */
  function ReadHeaders(data: Message, hs: seq<Header>, parse: MailParser): Message
    requires AllParse(parse, hs)
    decreases |hs|
  {
    if hs == [] then data
    else
      var n := |hs| - 1;
      assert AllParse(parse, hs[..n]) by {
        forall k | 0 <= k < n ensures HeaderParses(parse, hs[..n][k]) {
          assert hs[..n][k] == hs[k];
        }
      }
      ApplyHeader(ReadHeaders(data, hs[..n], parse), hs[n], parse)
  }

  /** Every recipient piece of the headers, in header order: the reference for the `To` columns. */
  function Recipients(hs: seq<Header>): seq<string>
  {
    if hs == [] then [] else Pieces(hs[0]) + Recipients(hs[1..])
  }

  lemma {:induction false} RecipientsSnoc(hs: seq<Header>)
    requires hs != []
    ensures Recipients(hs) == Recipients(hs[..|hs| - 1]) + Pieces(hs[|hs| - 1])
  {
    if |hs| > 1 {
      var tail := hs[1..];
      assert tail[..|tail| - 1] == hs[..|hs| - 1][1..];
      RecipientsSnoc(tail);
    } else {
      assert hs[..0] == [];
    }
  }

  lemma AllParsePrefix(parse: MailParser, hs: seq<Header>, n: nat)
    requires AllParse(parse, hs) && n <= |hs|
    ensures AllParse(parse, hs[..n])
  {
    forall k | 0 <= k < n ensures HeaderParses(parse, hs[..n][k]) {
      assert hs[..n][k] == hs[k];
    }
  }

  /** Every recipient piece parses when every header does. */
  lemma {:induction false} RecipientsParse(hs: seq<Header>, parse: MailParser)
    requires AllParse(parse, hs)
    ensures forall k | 0 <= k < |Recipients(hs)| :: Parses(parse, Recipients(hs)[k])
    decreases |hs|
  {
    if hs != [] {
      var rest := hs[1..];
      assert AllParse(parse, rest) by {
        forall k | 0 <= k < |rest| ensures HeaderParses(parse, rest[k]) {
          assert rest[k] == hs[k + 1];
        }
      }
      RecipientsParse(rest, parse);
      var pieces := Pieces(hs[0]);
      assert HeaderParses(parse, hs[0]);
      var rs := Recipients(hs);
      forall k | 0 <= k < |rs| ensures Parses(parse, rs[k]) {
        if k < |pieces| {
          assert rs[k] == pieces[k] && pieces[k] in pieces;
        } else {
          assert rs[k] == Recipients(rest)[k - |pieces|];
        }
      }
    }
  }

  /**
   * `To`, `ToPart` and `ToDomain` have one entry per recipient piece of the
   * To and Cc headers, in order, index-aligned: entry k is the parse of piece k.
   */
  lemma {:induction false} RecipientColumns(hs: seq<Header>, parse: MailParser)
    requires AllParse(parse, hs)
    // restated from `RecipientsParse`, so that the next clause's `ParseAddress` is defined
    ensures forall k | 0 <= k < |Recipients(hs)| :: Parses(parse, Recipients(hs)[k])
    ensures var d := ReadHeaders(Blank, hs, parse); var rs := Recipients(hs);
      && |d.to| == |rs| && |d.toPart| == |rs| && |d.toDomain| == |rs|
      && forall k | 0 <= k < |rs| :: (d.to[k], d.toPart[k], d.toDomain[k]) == ParseAddress(parse, rs[k])
    decreases |hs|
  {
    RecipientsParse(hs, parse);
    if hs != [] {
      var n := |hs| - 1;
      AllParsePrefix(parse, hs, n);
      RecipientColumns(hs[..n], parse);
      RecipientsSnoc(hs);
      var d0 := ReadHeaders(Blank, hs[..n], parse);
      assert ReadHeaders(Blank, hs, parse) == ApplyHeader(d0, hs[n], parse);
      ApplyHeaderRecipients(d0, hs[n], parse);
      ColumnsExtend(d0, ReadHeaders(Blank, hs, parse), Recipients(hs[..n]), Pieces(hs[n]), parse);
    }
  }

  /** The alignment step: aligned columns extended by the parses of more pieces stay aligned. */
  lemma ColumnsExtend(d0: Message, d: Message, prev: seq<string>, pieces: seq<string>, parse: MailParser)
    requires forall k | 0 <= k < |prev| :: Parses(parse, prev[k])
    requires forall k | 0 <= k < |pieces| :: Parses(parse, pieces[k])
    requires |d0.to| == |prev| && |d0.toPart| == |prev| && |d0.toDomain| == |prev|
    requires forall k | 0 <= k < |prev| :: (d0.to[k], d0.toPart[k], d0.toDomain[k]) == ParseAddress(parse, prev[k])
    requires |d.to| == |d0.to| + |pieces| && d.to[..|d0.to|] == d0.to
    requires |d.toPart| == |d0.toPart| + |pieces| && d.toPart[..|d0.toPart|] == d0.toPart
    requires |d.toDomain| == |d0.toDomain| + |pieces| && d.toDomain[..|d0.toDomain|] == d0.toDomain
    requires forall k | 0 <= k < |pieces| ::
      (d.to[|d0.to| + k], d.toPart[|d0.toPart| + k], d.toDomain[|d0.toDomain| + k]) == ParseAddress(parse, pieces[k])
    ensures forall k | 0 <= k < |prev + pieces| ::
      Parses(parse, (prev + pieces)[k]) &&
      (d.to[k], d.toPart[k], d.toDomain[k]) == ParseAddress(parse, (prev + pieces)[k])
  {
    var rs := prev + pieces;
    forall k | 0 <= k < |rs|
      ensures Parses(parse, rs[k]) && (d.to[k], d.toPart[k], d.toDomain[k]) == ParseAddress(parse, rs[k])
    {
      if k < |prev| {
        assert rs[k] == prev[k];
        assert d.to[k] == d.to[..|d0.to|][k];
        assert d.toPart[k] == d.toPart[..|d0.toPart|][k];
        assert d.toDomain[k] == d.toDomain[..|d0.toDomain|][k];
      } else {
        assert rs[k] == pieces[k - |prev|];
      }
    }
  }

  /** One header appends the parses of its pieces to the three columns and keeps what was there. */
  lemma ApplyHeaderRecipients(d0: Message, h: Header, parse: MailParser)
    requires HeaderParses(parse, h)
    ensures var d := ApplyHeader(d0, h, parse); var ps := Pieces(h);
      && |d.to| == |d0.to| + |ps| && d.to[..|d0.to|] == d0.to
      && |d.toPart| == |d0.toPart| + |ps| && d.toPart[..|d0.toPart|] == d0.toPart
      && |d.toDomain| == |d0.toDomain| + |ps| && d.toDomain[..|d0.toDomain|] == d0.toDomain
      && forall k | 0 <= k < |ps| ::
           (d.to[|d0.to| + k], d.toPart[|d0.toPart| + k], d.toDomain[|d0.toDomain| + k]) == ParseAddress(parse, ps[k])
  {
    var sent :=
      if IsSender(h) then
        var (from, part, domain) := ParseAddress(parse, h.value);
        d0.(from := from, fromPart := part, fromDomain := domain)
      else d0;
    assert sent.to == d0.to && sent.toPart == d0.toPart && sent.toDomain == d0.toDomain;
    var received := AddRecipients(sent, Pieces(h), parse);
    var d := ApplyHeader(d0, h, parse);
    assert d.to == received.to && d.toPart == received.toPart && d.toDomain == received.toDomain;
  }

  /** Header k is a sender header and no later header is one. */
  ghost predicate LastSender(hs: seq<Header>, k: int)
  {
    0 <= k < |hs| && IsSender(hs[k]) && forall j | k < j < |hs| :: !IsSender(hs[j])
  }

  /** Header k is a Subject header and no later header is one. */
  ghost predicate LastSubject(hs: seq<Header>, k: int)
  {
    0 <= k < |hs| && IsSubject(hs[k]) && forall j | k < j < |hs| :: !IsSubject(hs[j])
  }

  /** One header sets the From fields exactly when it is a sender header; all others leave them as they were. */
  lemma ApplyHeaderSender(d: Message, h: Header, parse: MailParser)
    requires HeaderParses(parse, h)
    ensures var r := ApplyHeader(d, h, parse);
      IsSender(h) ==> (r.from, r.fromPart, r.fromDomain) == ParseAddress(parse, h.value)
    ensures var r := ApplyHeader(d, h, parse);
      !IsSender(h) ==> r.from == d.from && r.fromPart == d.fromPart && r.fromDomain == d.fromDomain
  {
    var sent :=
      if IsSender(h) then
        var (from, part, domain) := ParseAddress(parse, h.value);
        d.(from := from, fromPart := part, fromDomain := domain)
      else d;
    var received := AddRecipients(sent, Pieces(h), parse);
    assert received.from == sent.from && received.fromPart == sent.fromPart && received.fromDomain == sent.fromDomain;
  }

  /** The From fields alone: the parse of the last sender header, or empty. */
  function SenderFields(hs: seq<Header>, parse: MailParser): (string, string, string)
    requires AllParse(parse, hs)
    decreases |hs|
  {
    if hs == [] then ("", "", "")
    else
      var n := |hs| - 1;
      AllParsePrefix(parse, hs, n);
      if IsSender(hs[n]) then ParseAddress(parse, hs[n].value) else SenderFields(hs[..n], parse)
  }

  /** The header loop leaves in the From fields exactly what `SenderFields` computes. */
  lemma {:induction false} FromFieldsAreSenderFields(hs: seq<Header>, parse: MailParser)
    requires AllParse(parse, hs)
    ensures var d := ReadHeaders(Blank, hs, parse);
      (d.from, d.fromPart, d.fromDomain) == SenderFields(hs, parse)
    decreases |hs|
  {
    if hs != [] {
      var n := |hs| - 1;
      AllParsePrefix(parse, hs, n);
      FromFieldsAreSenderFields(hs[..n], parse);
      var d0 := ReadHeaders(Blank, hs[..n], parse);
      assert ReadHeaders(Blank, hs, parse) == ApplyHeader(d0, hs[n], parse);
      ApplyHeaderSender(d0, hs[n], parse);
    }
  }

  /** Without a header named exactly From whose value holds an `@`, the From fields stay empty. */
  lemma {:induction false} NoSenderLeavesFromEmpty(hs: seq<Header>, parse: MailParser)
    requires AllParse(parse, hs)
    requires forall k | 0 <= k < |hs| :: !IsSender(hs[k])
    ensures var d := ReadHeaders(Blank, hs, parse);
      d.from == "" && d.fromPart == "" && d.fromDomain == ""
  {
    FromFieldsAreSenderFields(hs, parse);
    NoSenderFields(hs, parse);
  }

  lemma {:induction false} NoSenderFields(hs: seq<Header>, parse: MailParser)
    requires AllParse(parse, hs)
    requires forall k | 0 <= k < |hs| :: !IsSender(hs[k])
    ensures SenderFields(hs, parse) == ("", "", "")
    decreases |hs|
  {
    if hs != [] {
      var n := |hs| - 1;
      AllParsePrefix(parse, hs, n);
      forall k | 0 <= k < n ensures !IsSender(hs[..n][k]) {
        assert hs[..n][k] == hs[k];
      }
      NoSenderFields(hs[..n], parse);
    }
  }

  /** The From fields come from the last header named exactly From whose value holds an `@`. */
  lemma SenderIsLastFrom(hs: seq<Header>, parse: MailParser, k: int)
    requires AllParse(parse, hs)
    requires LastSender(hs, k)
    ensures var d := ReadHeaders(Blank, hs, parse);
      (d.from, d.fromPart, d.fromDomain) == ParseAddress(parse, hs[k].value)
  {
    FromFieldsAreSenderFields(hs, parse);
    LastSenderFields(hs, parse, k);
  }

  lemma {:induction false} LastSenderFields(hs: seq<Header>, parse: MailParser, k: int)
    requires AllParse(parse, hs)
    requires LastSender(hs, k)
    ensures SenderFields(hs, parse) == ParseAddress(parse, hs[k].value)
    decreases |hs|
  {
    var n := |hs| - 1;
    var prefix := hs[..n];
    AllParsePrefix(parse, hs, n);
    if k < n {
      assert !IsSender(hs[n]);
      assert prefix[k] == hs[k];
      assert LastSender(prefix, k) by {
        forall j | k < j < n ensures !IsSender(prefix[j]) {
          assert prefix[j] == hs[j];
        }
      }
      LastSenderFields(prefix, parse, k);
    }
  }

  /** `Subject` is the raw value of the last header named exactly Subject, or empty when there is none. */
  lemma {:induction false} SubjectIsLast(hs: seq<Header>, parse: MailParser)
    requires AllParse(parse, hs)
    ensures var d := ReadHeaders(Blank, hs, parse);
      (forall k | 0 <= k < |hs| :: !IsSubject(hs[k])) ==> d.subject == ""
    ensures var d := ReadHeaders(Blank, hs, parse);
      forall k | LastSubject(hs, k) :: d.subject == hs[k].value
    decreases |hs|
  {
    if hs != [] {
      var n := |hs| - 1;
      AllParsePrefix(parse, hs, n);
      SubjectIsLast(hs[..n], parse);
      var d := ReadHeaders(Blank, hs, parse);
      forall k | LastSubject(hs, k)
        ensures d.subject == hs[k].value
      {
        if k < n {
          assert !IsSubject(hs[n]);
          assert hs[..n][k] == hs[k];
          assert LastSubject(hs[..n], k) by {
            forall j | k < j < n ensures !IsSubject(hs[..n][j]) {
              assert hs[..n][j] == hs[j];
            }
          }
        }
      }
      if forall k | 0 <= k < |hs| :: !IsSubject(hs[k]) {
        forall k | 0 <= k < n ensures !IsSubject(hs[..n][k]) {
          assert hs[..n][k] == hs[k];
        }
      }
    }
  }

  /** A Cc header counts exactly as a To header with the same value: the record cannot tell them apart. */
  lemma {:induction false} CcCountsAsTo(hs: seq<Header>, k: nat, parse: MailParser)
    requires AllParse(parse, hs)
    requires k < |hs| && hs[k].name == "Cc"
    ensures AllParse(parse, hs[k := Header("To", hs[k].value)])
    ensures ReadHeaders(Blank, hs[k := Header("To", hs[k].value)], parse) == ReadHeaders(Blank, hs, parse)
    decreases |hs|
  {
    var renamed := hs[k := Header("To", hs[k].value)];
    assert Pieces(renamed[k]) == Pieces(hs[k]);
    assert HeaderParses(parse, renamed[k]);
    assert AllParse(parse, renamed) by {
      forall j | 0 <= j < |renamed| ensures HeaderParses(parse, renamed[j]) {
        if j != k {
          assert renamed[j] == hs[j];
        }
      }
    }
    var n := |hs| - 1;
    AllParsePrefix(parse, hs, n);
    AllParsePrefix(parse, renamed, n);
    var d := ReadHeaders(Blank, hs[..n], parse);
    var d' := ReadHeaders(Blank, renamed[..n], parse);
    assert ReadHeaders(Blank, renamed, parse) == ApplyHeader(d', renamed[n], parse);
    assert ReadHeaders(Blank, hs, parse) == ApplyHeader(d, hs[n], parse);
    if k == n {
      assert renamed[..n] == hs[..n];
      ApplyHeaderToIsCc(d, hs[n].value, parse);
    } else {
      assert renamed[..n] == hs[..n][k := Header("To", hs[k].value)];
      CcCountsAsTo(hs[..n], k, parse);
      assert renamed[n] == hs[n];
    }
  }

  lemma ApplyHeaderToIsCc(d: Message, value: string, parse: MailParser)
    requires HeaderParses(parse, Header("Cc", value))
    ensures HeaderParses(parse, Header("To", value))
    ensures ApplyHeader(d, Header("To", value), parse) == ApplyHeader(d, Header("Cc", value), parse)
  {
    assert Pieces(Header("To", value)) == Pieces(Header("Cc", value));
  }

  /** The header loop never touches `Labels`: reading headers over a record with labels L is reading them over a blank one, then setting L. */
  lemma {:induction false} LabelsUntouched(labels: seq<string>, hs: seq<Header>, parse: MailParser)
    requires AllParse(parse, hs)
    ensures ReadHeaders(Blank.(labels := labels), hs, parse) == ReadHeaders(Blank, hs, parse).(labels := labels)
    decreases |hs|
  {
    if hs != [] {
      var n := |hs| - 1;
      AllParsePrefix(parse, hs, n);
      LabelsUntouched(labels, hs[..n], parse);
      var d := ReadHeaders(Blank, hs[..n], parse);
      ApplyHeaderIgnoresLabels(d, labels, hs[n], parse);
    }
  }

  lemma ApplyHeaderIgnoresLabels(d: Message, labels: seq<string>, h: Header, parse: MailParser)
    requires HeaderParses(parse, h)
    ensures ApplyHeader(d.(labels := labels), h, parse) == ApplyHeader(d, h, parse).(labels := labels)
  {
    var sent :=
      if IsSender(h) then
        var (from, part, domain) := ParseAddress(parse, h.value);
        d.(from := from, fromPart := part, fromDomain := domain)
      else d;
    AddRecipientsIgnoresLabels(sent, labels, Pieces(h), parse);
  }

  lemma {:induction false} AddRecipientsIgnoresLabels(d: Message, labels: seq<string>, pieces: seq<string>, parse: MailParser)
    requires forall p | p in pieces :: Parses(parse, p)
    ensures AddRecipients(d.(labels := labels), pieces, parse) == AddRecipients(d, pieces, parse).(labels := labels)
    decreases |pieces|
  {
    if pieces != [] {
      AddRecipientsIgnoresLabels(d, labels, pieces[..|pieces| - 1], parse);
    }
  }

  /** The inner loop of main.go: one recipient per comma-separated piece, appended to the three columns. */
  method AppendRecipients(start: Message, pieces: seq<string>, parse: MailParser) returns (data: Message)
    requires forall p | p in pieces :: Parses(parse, p)
    ensures data == AddRecipients(start, pieces, parse)
  {
    data := start;
    for j := 0 to |pieces|
      invariant data == AddRecipients(start, pieces[..j], parse)
    {
      assert pieces[j] in pieces;
      assert pieces[..j + 1][..j] == pieces[..j];
      var (to, part, domain) := ParseAddress(parse, pieces[j]);
      data := data.(to := data.to + [to], toPart := data.toPart + [part], toDomain := data.toDomain + [domain]);
    }
    assert pieces[..|pieces|] == pieces;
  }

  /** The fold over one more header is one more turn of the loop. */
  lemma ReadHeadersStep(start: Message, hs: seq<Header>, parse: MailParser, i: nat)
    requires AllParse(parse, hs) && i < |hs|
    ensures AllParse(parse, hs[..i]) && AllParse(parse, hs[..i + 1])
    ensures ReadHeaders(start, hs[..i + 1], parse) == ApplyHeader(ReadHeaders(start, hs[..i], parse), hs[i], parse)
  {
    AllParsePrefix(parse, hs, i);
    AllParsePrefix(parse, hs, i + 1);
    assert hs[..i + 1][..i] == hs[..i];
  }

  /** The header loop of main.go: overwrite From and Subject, append to the `To` columns. */
  method PopulateHeaders(start: Message, headers: seq<Header>, parse: MailParser) returns (data: Message)
    requires AllParse(parse, headers)
    ensures data == ReadHeaders(start, headers, parse)
  {
    data := start;
    for i := 0 to |headers|
      invariant AllParse(parse, headers[..i])
      invariant data == ReadHeaders(start, headers[..i], parse)
    {
      var h := headers[i];
      assert HeaderParses(parse, h);
      ReadHeadersStep(start, headers, parse, i);
      if IsSender(h) {
        var (from, part, domain) := ParseAddress(parse, h.value);
        data := data.(from := from, fromPart := part, fromDomain := domain);
      }
      if IsRecipientList(h) {
        data := AppendRecipients(data, Split(h.value, ','), parse);
      } else {
        assert AddRecipients(data, Pieces(h), parse) == data;
      }
      if IsSubject(h) {
        data := data.(subject := h.value);
      }
    }
    assert headers[..|headers|] == headers;
  }

  // ---------------------------------------------------------------------------
  // Existing labels

  /** The names of the IDs that resolve to a non-empty name, in the order of the IDs. */
  function Known(id2Labels: map<string, string>, ids: seq<string>): seq<string>
    decreases |ids|
  {
    if ids == [] then []
    else
      var rest := Known(id2Labels, ids[..|ids| - 1]);
      var found := Lookup(id2Labels, ids[|ids| - 1]);
      if |found| > 0 then rest + [found] else rest
  }

  /**
   * `Labels` holds a name exactly when some ID on the message resolves to it;
   * when every ID resolves, it is their names one for one, in order.
   */
  lemma {:induction false} KnownNames(id2Labels: map<string, string>, ids: seq<string>)
    ensures |Known(id2Labels, ids)| <= |ids|
    ensures forall x :: x in Known(id2Labels, ids) <==>
      x != "" && exists k | 0 <= k < |ids| :: Lookup(id2Labels, ids[k]) == x
    ensures (forall k | 0 <= k < |ids| :: |Lookup(id2Labels, ids[k])| > 0) ==>
      |Known(id2Labels, ids)| == |ids| &&
      forall k | 0 <= k < |ids| :: Known(id2Labels, ids)[k] == id2Labels[ids[k]]
    decreases |ids|
  {
    if ids != [] {
      var n := |ids| - 1;
      var prefix := ids[..n];
      KnownNames(id2Labels, prefix);
      assert forall k | 0 <= k < n :: prefix[k] == ids[k];
      var known := Known(id2Labels, ids);
      forall x ensures x in known <==> x != "" && exists k | 0 <= k < |ids| :: Lookup(id2Labels, ids[k]) == x {
        if x != "" && exists k | 0 <= k < |ids| :: Lookup(id2Labels, ids[k]) == x {
          var k :| 0 <= k < |ids| && Lookup(id2Labels, ids[k]) == x;
          if k < n {
            assert Lookup(id2Labels, prefix[k]) == x;
          }
        }
      }
    }
  }

  /** `Known` works ID by ID: the names for a concatenation are the names for each part, in order. */
  lemma {:induction false} KnownConcat(id2Labels: map<string, string>, a: seq<string>, b: seq<string>)
    ensures Known(id2Labels, a + b) == Known(id2Labels, a) + Known(id2Labels, b)
    decreases |b|
  {
    if b == [] {
      assert a + b == a;
    } else {
      var n := |b| - 1;
      KnownConcat(id2Labels, a, b[..n]);
      assert (a + b)[..|a + b| - 1] == a + b[..n];
      assert (a + b)[|a + b| - 1] == b[n];
    }
  }

  /** One ID contributes its name when it has a non-empty one and nothing otherwise; with `KnownConcat` this fixes `Known` entirely. */
  lemma KnownSingle(id2Labels: map<string, string>, id: string)
    ensures Known(id2Labels, [id]) == if id in id2Labels && id2Labels[id] != "" then [id2Labels[id]] else []
  {
    assert [id][..0] == [];
  }

  /** What the label loop leaves behind: the cache maps, the names kept, the requests sent. */
  datatype Lookups = Lookups(maps: Maps, names: seq<string>, calls: seq<Call>)

  /** The label loop: `getLabelById` on each ID in turn, keeping the names of those that succeed. */
  function LabelLoop(m: Maps, ids: seq<string>, listReply: Reply<seq<Label>>): Lookups
    decreases |ids|
  {
    if ids == [] then Lookups(m, [], [])
    else
      var p := LabelLoop(m, ids[..|ids| - 1], listReply);
      var s := ResolveId(p.maps, ids[|ids| - 1], listReply);
      Lookups(s.maps, if s.result.Ok? then p.names + [s.result.value] else p.names, p.calls + s.calls)
  }

  /**
   * The label loop settles the cache at its first lookup and sees the same
   * maps afterwards, so the names are those the settled maps know, in ID
   * order. It sends only listings: none on a loaded cache, one when that
   * listing fills `labels2ID`, and one per ID while it stays empty.
   */
  lemma {:induction false} LabelLoopSettles(m: Maps, ids: seq<string>, listReply: Reply<seq<Label>>)
    ensures var l := LabelLoop(m, ids, listReply);
      && l.names == Known(Settled(m, listReply).id2Labels, ids)
      && l.maps == (if ids == [] then m else Settled(m, listReply))
      && (forall j | 0 <= j < |l.calls| :: l.calls[j] == ListLabels)
      && |l.calls| == (if ids == [] || |m.labels2ID| != 0 then 0
                       else if |Settled(m, listReply).labels2ID| != 0 then 1
                       else |ids|)
    decreases |ids|
  {
    if ids != [] {
      var n := |ids| - 1;
      var settled := Settled(m, listReply);
      LabelLoopSettles(m, ids[..n], listReply);
      var p := LabelLoop(m, ids[..n], listReply);
      ResolveIdSettles(p.maps, ids[n], listReply);
      ResolveIdSettles(m, ids[n], listReply);
      assert Settled(p.maps, listReply) == settled;
      var s := ResolveId(p.maps, ids[n], listReply);
      assert s.calls == Prepared(p.maps, listReply).calls;
      var l := LabelLoop(m, ids, listReply);
      assert l.calls == p.calls + s.calls;
      forall j | 0 <= j < |l.calls| ensures l.calls[j] == ListLabels {
        if j < |p.calls| {
          assert l.calls[j] == p.calls[j];
        } else {
          assert l.calls[j] == s.calls[j - |p.calls|];
        }
      }
    }
  }

  /** The label loop keeps the cache consistent when the listing it may reload is well-formed. */
  lemma LabelLoopKeepsConsistent(m: Maps, ids: seq<string>, listReply: Reply<seq<Label>>)
    requires Consistent(m)
    requires listReply.Ok? ==> WellFormed(listReply.value)
    ensures Consistent(LabelLoop(m, ids, listReply).maps)
  {
    LabelLoopSettles(m, ids, listReply);
    if ids != [] {
      ResolveIdSettles(m, ids[0], listReply);
      ResolveIdKeepsConsistent(m, ids[0], listReply);
    }
  }

  /**
   * The label loop of main.go: resolve each ID on the message and keep the
   * names that resolve. Every lookup after the first sees the same settled
   * maps, so the names are those the settled maps know, in order.
   */
  method PopulateLabels(cache: LabelCache, srv: Service, labelIds: seq<string>, listReply: Reply<seq<Label>>)
    returns (names: seq<string>)
    modifies cache, srv
    ensures var l := LabelLoop(old(cache.State()), labelIds, listReply);
      names == l.names && cache.State() == l.maps && srv.calls == old(srv.calls) + l.calls
    ensures names == Known(Settled(old(cache.State()), listReply).id2Labels, labelIds)
  {
    ghost var m0 := cache.State();
    names := [];
    for i := 0 to |labelIds|
      invariant var l := LabelLoop(m0, labelIds[..i], listReply);
        names == l.names && cache.State() == l.maps && srv.calls == old(srv.calls) + l.calls
    {
      assert labelIds[..i + 1][..i] == labelIds[..i];
      var name := cache.GetLabelById(srv, labelIds[i], listReply);
      if name.Ok? {
        names := names + [name.value];
      }
    }
    assert labelIds[..|labelIds|] == labelIds;
    LabelLoopSettles(m0, labelIds, listReply);
  }
}
