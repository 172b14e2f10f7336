/** The AXFR query: header, QNAME (section 3.1 of RFC 1035) and question (section 4.1.2). */
module Qname {
  import opened Wrappers
  import opened Words

  type Label = seq<u8>

  const DOT: u8 := 0x2E
  const DNS_MAX_LABEL_LEN := 63

  /** The limit of section 3.1 of RFC 1035 on a whole name; the code does not know it. */
  const MAX_NAME_LEN := 255

  // ---- The text form of a zone, as UTF-8 bytes ----

  /** `trim_end_matches('.')` */
  function TrimDots(zone: seq<u8>): seq<u8> {
    if zone != [] && zone[|zone| - 1] == DOT then TrimDots(zone[..|zone| - 1]) else zone
  }

  /** `split('.')`: one label more than there are dots. */
  function SplitDots(zone: seq<u8>): (labels: seq<Label>)
    ensures labels != []
  {
    if zone == [] then [[]]
    else
      var rest := SplitDots(zone[1..]);
      if zone[0] == DOT then [[]] + rest else [[zone[0]] + rest[0]] + rest[1..]
  }

  function Labels(zone: seq<u8>): seq<Label> { SplitDots(TrimDots(zone)) }

  function JoinDots(labels: seq<Label>): seq<u8>
    requires labels != []
  {
    if |labels| == 1 then labels[0] else labels[0] + [DOT] + JoinDots(labels[1..])
  }

  /** Splitting loses nothing. */
  lemma {:induction false} JoinSplit(zone: seq<u8>)
    ensures JoinDots(SplitDots(zone)) == zone
  {
    hide SplitDots, JoinDots;
    if zone == [] {
      SplitDotsStep(0, []);
      JoinOne([]);
    } else {
      JoinSplit(zone[1..]);
      assert zone == [zone[0]] + zone[1..];
      SplitDotsStep(zone[0], zone[1..]);
      JoinPut(zone[0], SplitDots(zone[1..]));
    }
  }

  lemma JoinOne(octets: Label)
    ensures JoinDots([octets]) == octets
  {
  }

  lemma JoinStep(octets: Label, labels: seq<Label>)
    requires labels != []
    ensures JoinDots([octets] + labels) == octets + [DOT] + JoinDots(labels)
  {
    assert ([octets] + labels)[1..] == labels;
  }

  /** A dot in front of joined labels is an empty label; another byte goes to the first label. */
  lemma JoinPut(c: u8, labels: seq<Label>)
    requires labels != []
    ensures JoinDots([[]] + labels) == [DOT] + JoinDots(labels)
    ensures JoinDots([[c] + labels[0]] + labels[1..]) == [c] + JoinDots(labels)
  {
    hide JoinDots;
    JoinStep([], labels);
    assert [] + [DOT] == [DOT];
    var first, rest := labels[0], labels[1..];
    assert labels == [first] + rest;
    if rest == [] {
      JoinOne(first);
      JoinOne([c] + first);
      assert labels == [first] && [[c] + first] + rest == [[c] + first];
    } else {
      JoinStep(first, rest);
      JoinStep([c] + first, rest);
      RegroupBytes([c], first, [DOT], JoinDots(rest));
    }
  }

  lemma RegroupBytes(a: seq<u8>, b: seq<u8>, c: seq<u8>, d: seq<u8>)
    ensures a + b + c + d == a + (b + c + d)
  {
  }

  /** What a name of RFC 1035 is made of. */
  predicate ProperLabel(octets: Label) { 1 <= |octets| <= DNS_MAX_LABEL_LEN }

  predicate ProperLabels(zone: seq<u8>) {
    forall i :: 0 <= i < |Labels(zone)| ==> ProperLabel(Labels(zone)[i])
  }

  /** The octets of a name before the root: a length octet for each label. */
  function NameLength(labels: seq<Label>): nat {
    if labels == [] then 0 else |labels[0]| + 1 + NameLength(labels[1..])
  }

  predicate FitsName(labels: seq<Label>) { NameLength(labels) + 1 <= MAX_NAME_LEN }

  predicate ProperZone(zone: seq<u8>) { ProperLabels(zone) && FitsName(Labels(zone)) }

  // ---- The builder ----

  function Be16(x: u16): seq<u8> { [x / 256, x % 256] }

  /** Labels too long for a length byte are skipped, all others written, the empty ones too. */
  function NameBytes(labels: seq<Label>): seq<u8> {
    if labels == [] then []
    else
      (if |labels[0]| > DNS_MAX_LABEL_LEN then [] else [|labels[0]|] + labels[0]) + NameBytes(labels[1..])
  }

  function Header(txid: u16): seq<u8> {
    Be16(txid) + [0, 0] + [0, 1] + [0, 0] + [0, 0] + [0, 0]
  }

  function Trailer(): seq<u8> { [0] + [0, 0xfc] + [0, 1] }

  function Query(zone: seq<u8>, txid: u16): seq<u8> {
    Header(txid) + (NameBytes(Labels(zone)) + Trailer())
  }

  lemma NameBytesSnoc(labels: seq<Label>, i: nat)
    requires i < |labels|
    ensures NameBytes(labels[i..])
         == (if |labels[i]| > DNS_MAX_LABEL_LEN then [] else [|labels[i]|] + labels[i]) + NameBytes(labels[i + 1..])
  {
    assert labels[i..][1..] == labels[i + 1..];
  }

  method BuildQueryWithTxid(zone: seq<u8>, txid: u16) returns (msg: seq<u8>)
    ensures msg == if |Query(zone, txid)| <= 0xFFFF then Query(zone, txid) else []
  {
    hide NameBytes;
    msg := Header(txid);
    var labels := Labels(zone);
    var i := 0;
    assert labels[0..] == labels;
    while i < |labels|
      invariant 0 <= i <= |labels|
      invariant msg + NameBytes(labels[i..]) == Header(txid) + NameBytes(labels)
    {
      NameBytesSnoc(labels, i);
      var octets := labels[i];
      i := i + 1;
      if |octets| > DNS_MAX_LABEL_LEN {
        continue;
      }
      msg := msg + ([|octets|] + octets);
    }
    NoNameBytes(labels[i..]);
    assert msg == Header(txid) + NameBytes(labels);
    msg := msg + [0];
    msg := msg + [0, 0xfc];
    msg := msg + [0, 1];
    assert msg == Query(zone, txid);
    if |msg| > 0xFFFF {
      msg := [];
    }
  }

  lemma NoNameBytes(labels: seq<Label>)
    requires labels == []
    ensures NameBytes(labels) == []
  {
  }

  // ---- A decoder to the letter of RFC 1035 ----

  datatype Parsed<+T> = Parsed(value: T, rest: seq<u8>)

  /** Labels up to the zero-length one; a length byte above 63 is a pointer or reserved. */
  function ParseLabels(bytes: seq<u8>): Option<Parsed<seq<Label>>> {
    if bytes == [] then None
    else if bytes[0] == 0 then Some(Parsed([], bytes[1..]))
    else if bytes[0] > DNS_MAX_LABEL_LEN || |bytes| < 1 + bytes[0] then None
    else
      match ParseLabels(bytes[1 + bytes[0]..])
      case None => None
      case Some(tail) => Some(Parsed([bytes[1..1 + bytes[0]]] + tail.value, tail.rest))
  }

  /** A name has at most 255 octets, length octets and root included. */
  function ParseName(bytes: seq<u8>): Option<Parsed<seq<Label>>> {
    match ParseLabels(bytes)
    case None => None
    case Some(name) => if FitsName(name.value) then Some(name) else None
  }

  function ParseBe16(bytes: seq<u8>): Option<Parsed<u16>> {
    if |bytes| < 2 then None
    else
      var hi: nat := bytes[0];
      Some(Parsed(256 * hi + bytes[1], bytes[2..]))
  }

  datatype Question = Question(qname: seq<Label>, qtype: u16, qclass: u16)

  function ParseQuestion(bytes: seq<u8>): Option<Parsed<Question>> {
    match ParseName(bytes)
    case None => None
    case Some(name) =>
      match ParseBe16(name.rest)
      case None => None
      case Some(qtype) =>
        match ParseBe16(qtype.rest)
        case None => None
        case Some(qclass) => Some(Parsed(Question(name.value, qtype.value, qclass.value), qclass.rest))
  }

  datatype Message = Message(id: u16, flags: u16, counts: seq<u16>, question: Question)

  /** A message of one question: id, flags, the four section counts, the question, nothing more. */
  function ParseMessage(bytes: seq<u8>): Option<Message> {
    if |bytes| < 12 then None
    else
      match ParseQuestion(bytes[12..])
      case None => None
      case Some(question) =>
        if question.rest != [] then None
        else Some(Message(Be16At(bytes, 0), Be16At(bytes, 2),
                          [Be16At(bytes, 4), Be16At(bytes, 6), Be16At(bytes, 8), Be16At(bytes, 10)],
                          question.value))
  }

  function Be16At(bytes: seq<u8>, at: nat): u16
    requires at + 2 <= |bytes|
  {
    var hi: nat := bytes[at];
    256 * hi + bytes[at + 1]
  }

  /** The transfer request the caller means. */
  function TransferRequest(zone: seq<u8>, txid: u16): Message {
    Message(txid, 0, [1, 0, 0, 0], Question(Labels(zone), 252, 1))
  }

  // ---- Round trip ----

  /** The labels that a decoder sees: those kept, up to the first empty one. */
  function Seen(labels: seq<Label>): seq<Label> {
    if labels == [] then []
    else if |labels[0]| > DNS_MAX_LABEL_LEN then Seen(labels[1..])
    else if labels[0] == [] then []
    else [labels[0]] + Seen(labels[1..])
  }

  /** The bytes left over once a decoder has met the first empty label. */
  function Unseen(labels: seq<Label>, trailer: seq<u8>): seq<u8> {
    if labels == [] then trailer
    else if labels[0] == [] then NameBytes(labels[1..]) + [0] + trailer
    else Unseen(labels[1..], trailer)
  }

  lemma ParseLabelsStep(octets: Label, tail: seq<u8>)
    requires ProperLabel(octets)
    ensures ParseLabels([|octets|] + octets + tail)
         == match ParseLabels(tail)
            case None => None
            case Some(p) => Some(Parsed([octets] + p.value, p.rest))
  {
    var bytes := [|octets|] + octets + tail;
    assert bytes[1..1 + bytes[0]] == octets && bytes[1 + bytes[0]..] == tail;
  }

  lemma ParseLabelsEnd(tail: seq<u8>)
    ensures ParseLabels([0] + tail) == Some(Parsed([], tail))
  {
    assert ([0] + tail)[1..] == tail;
  }

  /** Whatever the labels, decoding the name gives those seen and leaves what was not, if they fit. */
  lemma ParseNameBytes(labels: seq<Label>, trailer: seq<u8>)
    ensures ParseName(NameBytes(labels) + ([0] + trailer))
         == if FitsName(Seen(labels)) then Some(Parsed(Seen(labels), Unseen(labels, trailer))) else None
    ensures ParseLabels(NameBytes(labels) + ([0] + trailer)) == Some(Parsed(Seen(labels), Unseen(labels, trailer)))
  {
    hide ParseLabels, NameBytes, Seen, Unseen, FitsName;
    ParseLabelsBytes(labels, trailer);
  }

  lemma {:induction false} ParseLabelsBytes(labels: seq<Label>, trailer: seq<u8>)
    ensures ParseLabels(NameBytes(labels) + ([0] + trailer)) == Some(Parsed(Seen(labels), Unseen(labels, trailer)))
  {
    hide ParseLabels, ProperLabel;
    if labels == [] {
      ParseLabelsEnd(trailer);
      assert NameBytes(labels) + ([0] + trailer) == [0] + trailer;
    } else {
      var rest := NameBytes(labels[1..]) + ([0] + trailer);
      ParseLabelsBytes(labels[1..], trailer);
      FirstLabel(labels[0], NameBytes(labels[1..]), [0] + trailer);
      if labels[0] == [] {
        ParseLabelsEnd(rest);
        assert rest == NameBytes(labels[1..]) + [0] + trailer;
      } else if |labels[0]| <= DNS_MAX_LABEL_LEN {
        ProperIs(labels[0]);
        ParseLabelsStep(labels[0], rest);
      }
    }
  }

  lemma ProperIs(octets: Label)
    requires octets != [] && |octets| <= DNS_MAX_LABEL_LEN
    ensures ProperLabel(octets)
  {
  }

  lemma FirstLabel(octets: Label, name: seq<u8>, tail: seq<u8>)
    ensures |octets| <= DNS_MAX_LABEL_LEN ==> [|octets|] + octets + name + tail == [|octets|] + octets + (name + tail)
    ensures [] + name + tail == name + tail
    ensures octets == [] ==> [|octets|] + octets == [0]
  {
  }

  /** Everything is seen, with nothing left over, exactly when every label is proper. */
  lemma {:induction false} SeenIsAllIff(labels: seq<Label>)
    ensures |Seen(labels)| <= |labels|
    ensures Seen(labels) == labels <==> forall i :: 0 <= i < |labels| ==> ProperLabel(labels[i])
  {
    if labels != [] {
      SeenIsAllIff(labels[1..]);
      assert labels == [labels[0]] + labels[1..];
      if ProperLabel(labels[0]) {
        assert Seen(labels)[1..] == Seen(labels[1..]);
        assert (forall i :: 0 <= i < |labels| ==> ProperLabel(labels[i]))
           <==> (forall i :: 0 <= i < |labels[1..]| ==> ProperLabel(labels[1..][i])) by {
          if forall i :: 0 <= i < |labels[1..]| ==> ProperLabel(labels[1..][i]) {
            forall i | 0 <= i < |labels|
              ensures ProperLabel(labels[i])
            {
              if i > 0 { assert labels[1..][i - 1] == labels[i]; }
            }
          }
        }
      } else {
        assert |Seen(labels)| < |labels|;
      }
    }
  }

  lemma {:induction false} UnseenOfProper(labels: seq<Label>, trailer: seq<u8>)
    requires forall i :: 0 <= i < |labels| ==> ProperLabel(labels[i])
    ensures Unseen(labels, trailer) == trailer
  {
    if labels != [] {
      assert ProperLabel(labels[0]);
      UnseenOfProper(labels[1..], trailer);
    }
  }

  lemma ParseTypeAndClass()
    ensures ParseBe16([0, 0xfc] + [0, 1]) == Some(Parsed(252, [0, 1]))
    ensures ParseBe16([0, 1]) == Some(Parsed(1, []))
  {
    assert ([0, 0xfc] + [0, 1])[2..] == [0, 1];
    var none: seq<u8> := [];
    assert [0, 1][2..] == none;
  }

  lemma HeaderFields(txid: u16, question: seq<u8>)
    ensures var bytes := Header(txid) + question;
            && |bytes| >= 12 && bytes[12..] == question
            && Be16At(bytes, 0) == txid && Be16At(bytes, 2) == 0
            && [Be16At(bytes, 4), Be16At(bytes, 6), Be16At(bytes, 8), Be16At(bytes, 10)] == [1, 0, 0, 0]
  {
  }

  /** The bytes say what the caller means exactly for zones made of proper labels that fit a name:
      an empty label ends the name early, one too long is dropped from it, and no decoder takes a
      name of more than 255 octets. */
  lemma QueryMeansTransferIff(zone: seq<u8>, txid: u16)
    ensures ParseMessage(Query(zone, txid)) == Some(TransferRequest(zone, txid)) <==> ProperZone(zone)
  {
    hide ParseLabels, Header, Be16At, Seen, Unseen, NameBytes, ParseBe16, ProperLabel, Labels, FitsName;
    var labels := Labels(zone);
    var question := NameBytes(labels) + Trailer();
    HeaderFields(txid, question);
    assert Trailer() == [0] + ([0, 0xfc] + [0, 1]);
    ParseNameBytes(labels, [0, 0xfc] + [0, 1]);
    SeenIsAllIff(labels);
    ParseTypeAndClass();
    if ProperLabels(zone) {
      UnseenOfProper(labels, [0, 0xfc] + [0, 1]);
    }
  }

  /** Two bytes are left of the limit for the first length byte and the root: a zone of proper labels
      is proper when its text has at most 253 bytes. */
  lemma ProperZoneIff(zone: seq<u8>)
    ensures ProperZone(zone) <==> ProperLabels(zone) && |TrimDots(zone)| <= 253
  {
    NameLengthIsTextLength(TrimDots(zone));
  }

  /** n + 1 labels of one letter. */
  function LetterZone(n: nat): seq<u8> {
    if n == 0 then [0x61] else [0x61, DOT] + LetterZone(n - 1)
  }

  function Letters(n: nat): (labels: seq<Label>)
    ensures |labels| == n && forall i :: 0 <= i < n ==> labels[i] == [0x61]
  {
    if n == 0 then [] else [[0x61]] + Letters(n - 1)
  }

  lemma {:induction false} LetterZoneLabels(n: nat)
    ensures SplitDots(LetterZone(n)) == Letters(n + 1)
  {
    hide SplitDots, LetterZone, Letters;
    LetterZoneStep(n);
    if n == 0 {
      LetterLabel();
    } else {
      LetterZoneLabels(n - 1);
      var rest := LetterZone(n - 1);
      SplitDotsStep(DOT, rest);
      SplitDotsStep(0x61, [DOT] + rest);
      NextLetter(SplitDots(rest));
    }
  }

  lemma {:induction false} LetterZoneLength(n: nat)
    ensures |LetterZone(n)| == 2 * n + 1 && LetterZone(n)[2 * n] == 0x61
  {
    if n > 0 {
      LetterZoneLength(n - 1);
    }
  }

  lemma LetterLabel()
    ensures SplitDots([0x61] + []) == [[0x61]] + []
  {
    hide SplitDots;
    var empty: Label := [];
    SplitDotsStep(0x61, []);
    assert [empty][1..] == [] && [0x61] + empty == [0x61];
  }

  lemma LetterZoneStep(n: nat)
    ensures LetterZone(n) == if n == 0 then [0x61] + [] else [0x61] + ([DOT] + LetterZone(n - 1))
    ensures Letters(n + 1) == [[0x61]] + Letters(n) && Letters(0) == []
  {
  }

  lemma NextLetter(labels: seq<Label>)
    ensures var dotted := [[]] + labels; [[0x61] + dotted[0]] + dotted[1..] == [[0x61]] + labels
  {
    assert ([[]] + labels)[1..] == labels && [0x61] + [] == [0x61];
  }

  lemma SplitDotsStep(c: u8, rest: seq<u8>)
    ensures var labels := SplitDots(rest);
            SplitDots([c] + rest) == if c == DOT then [[]] + labels else [[c] + labels[0]] + labels[1..]
    ensures SplitDots([]) == [[]]
  {
    assert ([c] + rest)[1..] == rest;
  }

  /** 200 labels of one letter are all proper, and the query for them is sent, but it holds a name of
      401 octets, which cannot be read. */
  lemma OverlongZoneMisread(txid: u16)
    ensures var zone := LetterZone(199);
            && ProperLabels(zone)
            && !ProperZone(zone)
            && |Query(zone, txid)| <= 0xFFFF
            && ParseMessage(Query(zone, txid)) == None
  {
    hide ParseLabels, Header, Be16At, Seen, Unseen, NameBytes, SplitDots, NameLength;
    var zone := LetterZone(199);
    LetterZoneLabels(199);
    LetterZoneLength(199);
    assert TrimDots(zone) == zone;
    assert Labels(zone) == SplitDots(zone);
    forall i | 0 <= i < |Labels(zone)|
      ensures ProperLabel(Labels(zone)[i])
    {
      assert SplitDots(zone)[i] == [0x61];
    }
    ProperZoneIff(zone);
    QueryLength(zone, txid);
    var labels := Labels(zone);
    HeaderFields(txid, NameBytes(labels) + Trailer());
    assert Trailer() == [0] + ([0, 0xfc] + [0, 1]);
    ParseNameBytes(labels, [0, 0xfc] + [0, 1]);
    SeenIsAllIff(labels);
  }

  /** The root zone is not proper: its query asks for type 0 in class 0xfc00, and a byte is left. */
  lemma RootZoneMisread(txid: u16)
    ensures forall zone :: zone == [] || zone == [DOT] ==> !ProperZone(zone)
    ensures ParseQuestion(Query([DOT], txid)[12..]) == Some(Parsed(Question([], 0, 0xfc00), [1]))
  {
    hide ParseQuestion, ParseLabels, Header;
    assert TrimDots([DOT]) == [] by { assert TrimDots([DOT][..0]) == []; }
    var empty: Label := [];
    assert Labels([DOT]) == [empty] == Labels([]);
    assert NameBytes([empty]) == [0];
    HeaderFields(txid, [0] + Trailer());
    EmptyNameRead();
    assert !ProperLabel(Labels([DOT])[0]) && !ProperLabel(Labels([])[0]);
  }

  /** A zero-length label in front of the trailer shifts what is read behind it by a byte. */
  lemma EmptyNameRead()
    ensures ParseQuestion([0] + Trailer()) == Some(Parsed(Question([], 0, 0xfc00), [1]))
  {
    hide ParseLabels;
    ParseLabelsEnd(Trailer());
    assert Trailer() == [0, 0, 0xfc, 0, 1];
    assert Trailer()[2..] == [0xfc, 0, 1];
    assert [0xfc, 0, 1][2..] == [1];
  }

  // ---- Sizes ----

  lemma {:induction false} NameBytesLength(labels: seq<Label>)
    ensures |NameBytes(labels)| <= NameLength(labels)
    ensures (forall i :: 0 <= i < |labels| ==> |labels[i]| <= DNS_MAX_LABEL_LEN)
            <==> |NameBytes(labels)| == NameLength(labels)
  {
    if labels != [] {
      NameBytesLength(labels[1..]);
      assert labels == [labels[0]] + labels[1..];
    }
  }

  lemma {:induction false} NameLengthIsTextLength(zone: seq<u8>)
    ensures NameLength(SplitDots(zone)) == |zone| + 1
  {
    if zone != [] {
      NameLengthIsTextLength(zone[1..]);
      var rest := SplitDots(zone[1..]);
      if zone[0] == DOT {
        assert SplitDots(zone)[1..] == rest;
      } else {
        assert SplitDots(zone)[1..] == rest[1..];
      }
    }
  }

  /** 17 bytes around the labels, one length byte each; the labels and their length bytes are one
      byte more than the text without its final dots. */
  lemma QueryLength(zone: seq<u8>, txid: u16)
    ensures |Query(zone, txid)| <= 17 + NameLength(Labels(zone)) == 18 + |TrimDots(zone)|
    ensures ProperLabels(zone) ==> |Query(zone, txid)| == 17 + NameLength(Labels(zone))
  {
    hide NameBytes;
    NameBytesLength(Labels(zone));
    NameLengthIsTextLength(TrimDots(zone));
    if ProperLabels(zone) {
      forall i | 0 <= i < |Labels(zone)|
        ensures |Labels(zone)[i]| <= DNS_MAX_LABEL_LEN
      {
        assert ProperLabel(Labels(zone)[i]);
      }
    }
  }

  /** The message that goes out: two bytes of length, then the query. Empty queries are not sent. */
  function TcpMessage(query: seq<u8>): seq<u8> {
    Be16(|query| % 0x1_0000) + query
  }

  /** For any zone, the cast to sixteen bits in front of a query that was built loses nothing. A query
      is built for every proper zone, and for proper labels as long as the text has at most 65517
      bytes. */
  method SendQuery(zone: seq<u8>, txid: u16) returns (sent: Option<seq<u8>>)
    ensures sent.Some? ==>
              && |sent.value| >= 2
              && ParseBe16(sent.value) == Some(Parsed(|sent.value| - 2, Query(zone, txid)))
    ensures ProperLabels(zone) ==> (sent.Some? <==> |TrimDots(zone)| <= 65517)
    ensures ProperZone(zone) ==> sent.Some?
  {
    hide Query;
    var query := BuildQueryWithTxid(zone, txid);
    QueryLength(zone, txid);
    QueryNotEmpty(zone, txid);
    ProperZoneIff(zone);
    if query == [] {
      return None;
    }
    sent := Some(TcpMessage(query));
    assert sent.value[2..] == query;
  }

  lemma QueryNotEmpty(zone: seq<u8>, txid: u16)
    ensures |Query(zone, txid)| >= 17
  {
    hide NameBytes, Labels;
  }

  /** Two zones of proper labels share a query only if they differ in final dots alone. */
  lemma QueryInjective(a: seq<u8>, b: seq<u8>, idA: u16, idB: u16)
    requires ProperLabels(a) && ProperLabels(b)
    ensures Query(a, idA) == Query(b, idB) <==> TrimDots(a) == TrimDots(b) && idA == idB
  {
    hide ParseLabels, Header, NameBytes, ProperLabel, Labels, Seen, Unseen, Be16At;
    HeaderFields(idA, NameBytes(Labels(a)) + Trailer());
    HeaderFields(idB, NameBytes(Labels(b)) + Trailer());
    assert Trailer() == [0] + ([0, 0xfc] + [0, 1]);
    ParseNameBytes(Labels(a), [0, 0xfc] + [0, 1]);
    ParseNameBytes(Labels(b), [0, 0xfc] + [0, 1]);
    SeenIsAllIff(Labels(a));
    SeenIsAllIff(Labels(b));
    LabelsGiveText(a);
    LabelsGiveText(b);
  }

  lemma LabelsGiveText(zone: seq<u8>)
    ensures Labels(zone) != [] && JoinDots(Labels(zone)) == TrimDots(zone)
    ensures Labels(zone) == SplitDots(TrimDots(zone))
  {
    JoinSplit(TrimDots(zone));
  }
}
