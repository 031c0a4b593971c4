/**
 The range proxy of the JavRyo spider (`localProxy`): it answers byte ranges of an encrypted
 file by fetching the same range upstream and decrypting the part that lies in the first
 65536 bytes, starting the cipher at the right block and skipping a partial one.
 */
module AbyssProxy {
  import opened Numbers
  import opened Options
  import opened Text
  import opened CounterMode
  import Payload

  const CHUNK: nat := 2 * 1024 * 1024

  /** What the payload names: where the file is and how long it is taken to be. */
  datatype Info = Info(url: string, size: int)

  /** What lies outside: the cipher, the digest, the JSON codec, and the bytes upstream answers to a range. */
  datatype World = World(
    cipher: BlockCipher,
    md5: string -> Digest,
    dumps: Info -> seq<Payload.Octet>,
    loads: seq<Payload.Octet> -> Option<Info>,
    fetch: (string, nat, int) -> seq<Byte>)

  datatype Request = Request(kind: string, data: string, range: string)

  /** The outcome of a request: a status, or bytes `start` to `last` of a file of `size` bytes. */
  datatype Response = Refused(status: nat) | Partial(body: seq<Byte>, start: nat, last: nat, size: int)

  /** The list handed back to the framework, headers as text. */
  datatype Reply = Reply(status: nat, body: seq<Byte>, contentLength: string, contentRange: string)

  // ----- ranges -----

  /** The pattern `bytes=(\d+)-(\d*)` at the front of a header. */
  function ParseRange(header: string): Option<(nat, Option<nat>)> {
    if !StartsWith(header, "bytes=") then None
    else
      var rest := header[6..];
      var first := LeadingDigits(rest);
      if first == "" || |first| == |rest| || rest[|first|] != '-' then None
      else
        var second := LeadingDigits(rest[|first| + 1..]);
        Some((Value(first), if second == "" then None else Some(Value(second))))
  }

  /** The range fetched upstream, both ends included. */
  function RangeOf(header: string, size: int): (nat, int) {
    if header == "" then (0, Min(CHUNK - 1, size - 1))
    else match ParseRange(header)
      case None => (0, size - 1)
      case Some((start, Some(end))) => (start, end)
      case Some((start, None)) => (start, Min(start + CHUNK - 1, size - 1))
  }

  function LastSegment(url: string): string {
    url[AfterLast(url, '/')..]
  }

  function KeyOf(w: World, info: Info): Digest {
    w.md5(LastSegment(info.url))
  }

  function ContentRange(start: nat, last: nat, size: int): string {
    "bytes " + (Decimal(start) + ("-" + (Decimal(last) + ("/" + DecimalInt(size)))))
  }

  function AsReply(r: Response): Reply {
    match r
    case Refused(status) => Reply(status, [], "", "")
    case Partial(body, start, last, size) => Reply(206, body, Decimal(|body|), ContentRange(start, last, size))
  }

  // ----- the answer, said simply -----

  function InfoOf(w: World, data: string): Option<Info> {
    match Payload.Received(data)
    case None => None
    case Some(bytes) => w.loads(bytes)
  }

  function AnswerRange(w: World, info: Info, start: nat, end: int): (r: Response)
    ensures r.Partial? ==> r.start == start <= r.last && |r.body| == r.last + 1 - start
  {
    var raw := w.fetch(info.url, start, end);
    if raw == [] then Refused(500)
    else
      var key := KeyOf(w, info);
      Partial(Piece(w.cipher, key, InitialCounter(key), start, raw), start, start + |raw| - 1, info.size)
  }

  function Answer(w: World, req: Request): Response {
    if req.kind != "abysscdn" then Refused(404)
    else match InfoOf(w, req.data)
      case None => Refused(500)
      case Some(info) =>
        var range := RangeOf(req.range, info.size);
        AnswerRange(w, info, range.0, range.1)
  }

  /** The handler. */
  method LocalProxy(w: World, req: Request) returns (reply: Reply)
    ensures reply == AsReply(Answer(w, req))
    ensures req.kind != "abysscdn" ==> reply == Reply(404, [], "", "")
    ensures req.kind == "abysscdn" && InfoOf(w, req.data).None? ==> reply == Reply(500, [], "", "")
    // the status, both headers and every byte of what is sent
    ensures req.kind == "abysscdn" && InfoOf(w, req.data).Some? ==>
              var info := InfoOf(w, req.data).value;
              var (s, e) := RangeOf(req.range, info.size);
              var raw := w.fetch(info.url, s, e);
              if raw == [] then reply == Reply(500, [], "", "")
              else Labelled(reply, s, info.size) && Decrypts(w, info, s, raw, reply.body)
  {
    if req.kind != "abysscdn" {
      return AsReply(Refused(404));
    }
    var decoded := InfoOf(w, req.data);
    if decoded.None? {
      return AsReply(Refused(500));
    }
    var info := decoded.value;
    var start, end := 0, info.size - 1;
    if req.range != "" {
      var m := ParseRange(req.range);
      if m.Some? {
        start := m.value.0;
        end := if m.value.1.Some? then m.value.1.value else Min(start + CHUNK - 1, info.size - 1);
      }
    } else {
      end := Min(CHUNK - 1, info.size - 1);
    }
    assert (start, end) == RangeOf(req.range, info.size);
    var r := FetchAndDecrypt(w, info, start, end);
    reply := AsReply(r);
    if w.fetch(info.url, start, end) != [] { RangeReply(w, info, start, end); }
  }

  /** A reply that gives bytes and says where they stand and how many they are. */
  ghost predicate Labelled(reply: Reply, s: nat, size: int) {
    && reply.status == 206 && reply.body != []
    && reply.contentLength == Decimal(|reply.body|)
    && reply.contentRange == ContentRange(s, s + |reply.body| - 1, size)
  }

  /** The byte at a position, decrypted: only the first 65536 are encrypted. */
  function Decrypted(w: World, info: Info, at: nat, b: Byte): Byte {
    var key := KeyOf(w, info);
    if at < 65536 then Xor(b, KeyStream(w.cipher, key, InitialCounter(key), at)) else b
  }

  ghost predicate Decrypts(w: World, info: Info, s: nat, raw: seq<Byte>, body: seq<Byte>) {
    |body| == |raw| && forall i | 0 <= i < |raw| :: body[i] == Decrypted(w, info, s + i, raw[i])
  }

  lemma PieceDecrypts(w: World, info: Info, s: nat, raw: seq<Byte>)
    ensures Decrypts(w, info, s, raw, Piece(w.cipher, KeyOf(w, info), InitialCounter(KeyOf(w, info)), s, raw))
  {
  }

  lemma RangeReply(w: World, info: Info, s: nat, e: int)
    requires w.fetch(info.url, s, e) != []
    ensures var reply := AsReply(AnswerRange(w, info, s, e));
            Labelled(reply, s, info.size) && Decrypts(w, info, s, w.fetch(info.url, s, e), reply.body)
  {
    var raw := w.fetch(info.url, s, e);
    PieceDecrypts(w, info, s, raw);
  }

  method FetchAndDecrypt(w: World, info: Info, start: nat, end: int) returns (r: Response)
    ensures r == AnswerRange(w, info, start, end)
  {
    var raw := w.fetch(info.url, start, end);
    if raw == [] {
      return Refused(500);
    }
    var decrypted := DecryptPiece(w.cipher, KeyOf(w, info), start, raw);
    r := Partial(decrypted, start, start + |decrypted| - 1, info.size);
  }

  /** Masks the part that lies in the encrypted range and keeps the rest. */
  method DecryptPiece(cipher: BlockCipher, key: Digest, start: nat, raw: seq<Byte>) returns (decrypted: seq<Byte>)
    ensures decrypted == Piece(cipher, key, InitialCounter(key), start, raw)
  {
    if start >= ENCRYPT_SIZE {
      return raw;
    }
    var encEnd := if |raw| <= ENCRYPT_SIZE - start then |raw| else ENCRYPT_SIZE - start;
    var head := DecryptHead(cipher, key, start, raw[..encEnd]);
    decrypted := head + raw[encEnd..];
  }

  /** One cipher object, started at the block of the range and advanced into it; its counter never overflows. */
  method DecryptHead(cipher: BlockCipher, key: Digest, start: nat, part: seq<Byte>) returns (head: seq<Byte>)
    requires start + |part| <= ENCRYPT_SIZE
    ensures head == Masked(cipher, key, InitialCounter(key), start, part)
  {
    var blocks, skipped := start / BLOCK, start % BLOCK;
    var initial := InitialCounter(key) + blocks;
    assert start == BLOCK * blocks + skipped;
    CounterNeverOverflows(key, BLOCK * blocks);
    CounterNeverOverflows(key, start + |part|);
    var stream := new CtrStream(cipher, key, initial);
    if skipped > 0 {
      var ignored := stream.Decrypt(seq(skipped, _ => 0));
    }
    head := stream.Decrypt(part);
    UnalignedStart(cipher, key, InitialCounter(key), start, part);
  }

  // ----- against an upstream that honours ranges -----

  /** Upstream has this file and answers every satisfiable range with exactly its bytes. */
  ghost predicate Honours(w: World, url: string, file: seq<Byte>) {
    forall s: nat, e: int | s <= e && s < |file| :: w.fetch(url, s, e) == file[s..Min(e + 1, |file|)]
  }

  /** Upstream ignores an invalid range, whose end lies before its start (section 14.1.1 of RFC 9110). */
  ghost predicate IgnoresInvalid(w: World, url: string, file: seq<Byte>) {
    forall s: nat, e: int | e < s :: w.fetch(url, s, e) == file
  }

  function Plain(w: World, info: Info, file: seq<Byte>): seq<Byte> {
    var key := KeyOf(w, info);
    WholeFile(w.cipher, key, InitialCounter(key), file)
  }

  /** The answer gives bytes `start` to `last` of the decrypted file, and says so. */
  ghost predicate Delivers(w: World, info: Info, file: seq<Byte>, r: Response, start: nat, last: nat) {
    start <= last < |file| && r == Partial(Plain(w, info, file)[start..last + 1], start, last, info.size)
  }

  /** Every satisfiable range is answered by the same slice of the decrypted file; the total is the size the payload
      names. */
  lemma RangeIsSlice(w: World, info: Info, file: seq<Byte>, s: nat, e: int)
    requires Honours(w, info.url, file) && s <= e && s < |file|
    ensures Delivers(w, info, file, AnswerRange(w, info, s, e), s, Min(e, |file| - 1))
  {
    var last := Min(e, |file| - 1);
    SliceDecrypted(w, info, file, s, e, last);
  }

  /** Whatever slice upstream sends, it comes out as that slice of the decrypted file. */
  lemma SliceDecrypted(w: World, info: Info, file: seq<Byte>, s: nat, e: int, last: nat)
    requires s <= last < |file| && w.fetch(info.url, s, e) == file[s..last + 1]
    ensures Delivers(w, info, file, AnswerRange(w, info, s, e), s, last)
  {
    var key := KeyOf(w, info);
    var raw := file[s..last + 1];
    assert |raw| == last + 1 - s && raw != [];
    PieceIsSlice(w.cipher, key, InitialCounter(key), file, s, last + 1);
  }

  /** An invalid range is answered with bytes reported beyond the end of the file. */
  lemma InvalidRangeOverruns(w: World, info: Info, file: seq<Byte>, s: nat, e: int)
    requires IgnoresInvalid(w, info.url, file) && file != [] && e < s
    ensures var r := AnswerRange(w, info, s, e);
            r.Partial? && r.start == s && r.last == s + |file| - 1
  {
    assert w.fetch(info.url, s, e) == file;
  }

  /** Whatever upstream sends for a range that starts past the end is reported as bytes beyond the end: its status
      is never looked at. */
  lemma PastEndOverruns(w: World, info: Info, file: seq<Byte>, s: nat, e: int)
    requires |file| <= s && w.fetch(info.url, s, e) != []
    ensures var r := AnswerRange(w, info, s, e);
            && r.Partial? && r.start == s && r.last >= |file|
            && forall last: nat :: !Delivers(w, info, file, r, s, last)
  {
  }

  /** The proxy is right exactly for ranges that start inside the file with their end not before their start, or at
      its first byte. */
  lemma RightExactlyWhen(w: World, info: Info, file: seq<Byte>, s: nat, e: int)
    requires Honours(w, info.url, file) && IgnoresInvalid(w, info.url, file)
    ensures (exists last: nat :: Delivers(w, info, file, AnswerRange(w, info, s, e), s, last))
       <==> s < |file| && (s <= e || s == 0)
  {
    var r := AnswerRange(w, info, s, e);
    if s >= |file| {
      assert forall last: nat :: !Delivers(w, info, file, r, s, last);
    } else if s <= e {
      RangeIsSlice(w, info, file, s, e);
      assert Delivers(w, info, file, r, s, Min(e, |file| - 1));
    } else {
      InvalidRangeOverruns(w, info, file, s, e);
      assert forall last: nat | Delivers(w, info, file, r, s, last) :: s == 0;
      if s == 0 {
        assert file == file[0..|file|];
        SliceDecrypted(w, info, file, 0, e, |file| - 1);
        assert Delivers(w, info, file, r, 0, |file| - 1);
      }
    }
  }

  /** An open-ended range that starts past the size the payload names is fetched with its end before its start. */
  lemma OpenRangePastEnd(start: nat, size: nat)
    requires size <= start
    ensures RangeOf(OpenRange(start), size) == (start, size - 1) && size - 1 < start
  {
    OpenRangeParses(start);
  }

  /** When the size probe failed and the payload names a larger size, an open-ended range past the real end is
      fetched as it stands. */
  lemma OpenRangeBeyondRealEnd(start: nat, file: seq<Byte>, size: nat)
    requires |file| <= start < size
    ensures var (s, e) := RangeOf(OpenRange(start), size);
            s == start && |file| <= s <= e
  {
    OpenRangeParses(start);
  }

  // ----- ranges past the end, concretely -----

  /** Upstream has three bytes and answers a range past them with a one-byte error page. */
  function ThreeBytes(): (string, nat, int) -> seq<Byte> {
    (url: string, s: nat, e: int) =>
      if e < s then [1, 2, 3]
      else if s < 3 then [1, 2, 3][s..Min(e + 1, 3)]
      else [33]
  }

  lemma ThreeBytesHonours(w: World, url: string)
    requires w.fetch == ThreeBytes()
    ensures Honours(w, url, [1, 2, 3]) && IgnoresInvalid(w, url, [1, 2, 3])
  {
  }

  lemma ByteFiveOfThree()
    ensures ContentRange(5, 5, 3) == "bytes 5-5/3"
  {
    assert Decimal(5) == "5" && DecimalInt(3) == "3";
  }

  /** It honours ranges, and the error page it sends for bytes 5 to 9 is reported as byte 5 of 3. */
  lemma ErrorPageReported(w: World, data: string, info: Info)
    requires w.fetch == ThreeBytes() && InfoOf(w, data) == Some(info) && info.size == 3
    ensures Honours(w, info.url, [1, 2, 3]) && IgnoresInvalid(w, info.url, [1, 2, 3])
    ensures var reply := AsReply(Answer(w, Request("abysscdn", data, ClosedRange(5, 9))));
            reply.status == 206 && |reply.body| == 1 && reply.contentRange == "bytes 5-5/3"
  {
    ErrorPageReply(w, data, info);
    ThreeBytesHonours(w, info.url);
  }

  /** An open-ended range from byte 3 on is sent as bytes 3 to 2, and the whole file comes back as bytes 3 to 5 of 3. */
  lemma WholeFileReported(w: World, data: string, info: Info)
    requires w.fetch == ThreeBytes() && InfoOf(w, data) == Some(info) && info.size == 3
    ensures var reply := AsReply(Answer(w, Request("abysscdn", data, OpenRange(3))));
            reply.status == 206 && |reply.body| == 3 && reply.contentRange == "bytes 3-5/3"
  {
    assert w.fetch(info.url, 3, 2) == [1, 2, 3];
    WholeFileReply(w, data, info);
  }

  lemma WholeFileReply(w: World, data: string, info: Info)
    requires w.fetch(info.url, 3, 2) == [1, 2, 3] && InfoOf(w, data) == Some(info) && info.size == 3
    ensures var reply := AsReply(Answer(w, Request("abysscdn", data, OpenRange(3))));
            reply.status == 206 && |reply.body| == 3 && reply.contentRange == "bytes 3-5/3"
  {
    var req := Request("abysscdn", data, OpenRange(3));
    assert RangeOf(req.range, 3) == (3, 2) by { OpenRangePastEnd(3, 3); }
    AnswerToRange(w, req, info, 3, 2);
    PastEndReply(w, info, 3, 2);
    assert ContentRange(3, 5, 3) == "bytes 3-5/3" by {
      assert Decimal(3) == "3" && Decimal(5) == "5" && DecimalInt(3) == "3";
    }
  }

  lemma ErrorPageReply(w: World, data: string, info: Info)
    requires w.fetch(info.url, 5, 9) == [33] && InfoOf(w, data) == Some(info) && info.size == 3
    ensures var reply := AsReply(Answer(w, Request("abysscdn", data, ClosedRange(5, 9))));
            reply.status == 206 && |reply.body| == 1 && reply.contentRange == "bytes 5-5/3"
  {
    var req := Request("abysscdn", data, ClosedRange(5, 9));
    assert RangeOf(req.range, 3) == (5, 9) by { ClosedRangeParses(5, 9); }
    AnswerToRange(w, req, info, 5, 9);
    PastEndReply(w, info, 5, 9);
    ByteFiveOfThree();
  }

  lemma PastEndReply(w: World, info: Info, s: nat, e: int)
    requires w.fetch(info.url, s, e) != []
    ensures var raw, reply := w.fetch(info.url, s, e), AsReply(AnswerRange(w, info, s, e));
            && reply.status == 206 && |reply.body| == |raw|
            && reply.contentRange == ContentRange(s, s + |raw| - 1, info.size)
  {
  }

  // ----- headers read back -----

  function OpenRange(start: nat): string {
    "bytes=" + (Decimal(start) + ("-" + ""))
  }

  function ClosedRange(start: nat, end: nat): string {
    "bytes=" + (Decimal(start) + ("-" + Decimal(end)))
  }

  lemma RangeParses(a: string, b: string)
    requires AllDigits(a) && AllDigits(b) && a != ""
    ensures ParseRange("bytes=" + (a + ("-" + b)))
         == Some((Value(a), if b == "" then None else Some(Value(b))))
  {
    var rest := a + ("-" + b);
    assert ("bytes=" + rest)[6..] == rest;
    LeadingDigitsTakesAll(a, "-" + b);
    assert rest[|a| + 1..] == b;
    LeadingDigitsTakesAll(b, "");
    assert b + "" == b;
  }

  lemma OpenRangeParses(start: nat)
    ensures ParseRange(OpenRange(start)) == Some((start, None))
  {
    RangeParses(Decimal(start), "");
  }

  lemma ClosedRangeParses(start: nat, end: nat)
    ensures ParseRange(ClosedRange(start, end)) == Some((start, Some(end)))
  {
    RangeParses(Decimal(start), Decimal(end));
  }

  /** Text that begins like a range: `bytes=`, digits, a dash and perhaps more digits. */
  ghost predicate BeginsLikeRange(header: string) {
    exists a: string, rest: string :: AllDigits(a) && a != "" && header == "bytes=" + (a + ("-" + rest))
  }

  lemma ParsesIff(header: string)
    ensures ParseRange(header).Some? <==> BeginsLikeRange(header)
  {
    if ParseRange(header).Some? { ParsedLike(header); }
    if BeginsLikeRange(header) {
      var a: string, rest: string :| AllDigits(a) && a != "" && header == "bytes=" + (a + ("-" + rest));
      ParsesLike(a, rest);
    }
  }

  lemma ParsedLike(header: string)
    requires ParseRange(header).Some?
    ensures BeginsLikeRange(header)
  {
    var a := LeadingDigits(header[6..]);
    var rest := header[6..][|a| + 1..];
    assert header[6..] == a + ("-" + rest);
    assert header == "bytes=" + (a + ("-" + rest));
  }

  lemma ParsesLike(a: string, rest: string)
    requires AllDigits(a) && a != ""
    ensures ParseRange("bytes=" + (a + ("-" + rest))).Some?
  {
    assert ("bytes=" + (a + ("-" + rest)))[6..] == a + ("-" + rest);
    LeadingDigitsTakesAll(a, "-" + rest);
  }

  /** The range fetched upstream for every kind of header: at most 2 MiB of an open-ended one or of none at all. */
  lemma RangesFetched(start: nat, end: nat, size: int, header: string)
    ensures RangeOf(ClosedRange(start, end), size) == (start, end)
    ensures RangeOf(OpenRange(start), size) == (start, if start + 2097152 <= size then start + 2097151 else size - 1)
    ensures RangeOf("", size) == (0, if 2097152 <= size then 2097151 else size - 1)
    ensures header != "" && !BeginsLikeRange(header) ==> RangeOf(header, size) == (0, size - 1)
  {
    ClosedRangeParses(start, end);
    OpenRangeParses(start);
    ParsesIff(header);
    assert ClosedRange(start, end)[0] == OpenRange(start)[0] == 'b';
  }

  /** The key is made from the last part of the address alone. */
  lemma KeyOfLastPart(w: World, base: string, name: string, size: int)
    requires '/' !in name
    ensures KeyOf(w, Info(base + ['/'] + name, size)) == KeyOf(w, Info(name, size)) == w.md5(name)
  {
    AfterLastInMiddle(base, '/', name);
    assert (base + ['/'] + name)[|base| + 1..] == name && name[0..] == name;
  }

  /** The last byte position a `Content-Range` reports. */
  function EndOf(contentRange: string): Option<nat> {
    if |contentRange| < 6 then None
    else
      var rest := contentRange[6..];
      var first := LeadingDigits(rest);
      if |first| == |rest| then None else Some(Value(LeadingDigits(rest[|first| + 1..])))
  }

  lemma EndParses(a: string, b: string, tail: string)
    requires AllDigits(a) && AllDigits(b) && (tail == "" || !IsDigit(tail[0]))
    ensures EndOf("bytes " + (a + ("-" + (b + tail)))) == Some(Value(b))
  {
    var last := b + tail;
    var rest := a + ("-" + last);
    assert ("bytes " + rest)[6..] == rest;
    LeadingDigitsTakesAll(a, "-" + last);
    assert rest[|a| + 1..] == last;
    LeadingDigitsTakesAll(b, tail);
  }

  /** The first byte position a `Content-Range` reports. */
  function StartOf(contentRange: string): Option<nat> {
    if !StartsWith(contentRange, "bytes ") then None else Some(Value(LeadingDigits(contentRange[6..])))
  }

  function ReadInt(s: string): int {
    if s != "" && s[0] == '-' then 0 - Value(LeadingDigits(s[1..])) else Value(LeadingDigits(s))
  }

  /** The size it reports, as the number after the last slash. */
  function TotalOf(contentRange: string): int {
    ReadInt(contentRange[AfterLast(contentRange, '/')..])
  }

  lemma StartParses(a: string, tail: string)
    requires AllDigits(a) && tail != "" && !IsDigit(tail[0])
    ensures StartOf("bytes " + (a + tail)) == Some(Value(a))
  {
    assert ("bytes " + (a + tail))[6..] == a + tail;
    LeadingDigitsTakesAll(a, tail);
  }

  lemma ReadsInt(n: int)
    ensures ReadInt(DecimalInt(n)) == n && '/' !in DecimalInt(n)
  {
    var digits := if n < 0 then Decimal(-n) else Decimal(n);
    LeadingDigitsTakesAll(digits, "");
    assert digits + "" == digits;
    assert forall i | 0 <= i < |digits| :: IsDigit(digits[i]);
    if n < 0 { assert DecimalInt(n)[1..] == digits; }
  }

  lemma TotalParses(front: string, total: string)
    requires '/' !in total
    ensures TotalOf(front + ("/" + total)) == ReadInt(total)
  {
    AfterLastInMiddle(front, '/', total);
    assert front + ("/" + total) == front + ['/'] + total;
    assert (front + ['/'] + total)[|front| + 1..] == total;
  }

  /** A client reads the reported end back from the header. */
  lemma EndOfContentRange(start: nat, end: nat, size: int)
    ensures EndOf(ContentRange(start, end, size)) == Some(end)
  {
    EndParses(Decimal(start), Decimal(end), "/" + DecimalInt(size));
  }

  /** A client reads all three numbers back from the header. */
  lemma RangeReadsBack(start: nat, end: nat, size: int)
    ensures StartOf(ContentRange(start, end, size)) == Some(start)
    ensures EndOf(ContentRange(start, end, size)) == Some(end)
    ensures TotalOf(ContentRange(start, end, size)) == size
  {
    var a, b, total := Decimal(start), Decimal(end), DecimalInt(size);
    StartParses(a, "-" + (b + ("/" + total)));
    EndOfContentRange(start, end, size);
    var front := "bytes " + (a + ("-" + b));
    assert ContentRange(start, end, size) == front + ("/" + total);
    ReadsInt(size);
    TotalParses(front, total);
  }

  /** And the number of bytes sent. */
  lemma LengthReadsBack(n: nat)
    ensures AllDigits(Decimal(n)) && Value(Decimal(n)) == n
    ensures |Decimal(n)| > 1 ==> Decimal(n)[0] != '0'
  {
    NoLeadingZero(n);
  }

  // ----- a client that plays the whole file -----

  /** What answers the client's request for the bytes from a position on. */
  type Server = nat -> Response

  /** Where the client goes on: after the last byte reported, unless that ends the file or makes no progress. */
  function GoesOnAt(r: Response, next: nat, size: nat): (n: Option<nat>)
    ensures n.Some? ==> next < n.value < size
  {
    if r.Partial? && next <= r.last && r.last + 1 < size then Some(r.last + 1) else None
  }

  function Download(server: Server, size: nat, next: nat): seq<Response>
    requires next < size
    decreases size - next
  {
    var r := server(next);
    match GoesOnAt(r, next, size)
    case Some(n) => [r] + Download(server, size, n)
    case None => [r]
  }

  function Bodies(rs: seq<Response>): seq<Byte> {
    if rs == [] then []
    else (if rs[0].Partial? then rs[0].body else []) + Bodies(rs[1..])
  }

  lemma BodiesCons(r: Response, rest: seq<Response>)
    requires r.Partial?
    ensures Bodies([r] + rest) == r.body + Bodies(rest)
  {
    assert ([r] + rest)[1..] == rest;
  }

  /** How many pieces of 2 MiB cover `n` bytes: n over CHUNK, rounded up. */
  function Pieces(n: nat): nat {
    (n + CHUNK - 1) / CHUNK
  }

  lemma OnePieceLess(n: nat)
    requires n > 0
    ensures Pieces(n) == if n <= CHUNK then 1 else 1 + Pieces(n - CHUNK)
  {
  }

  /** The server answers a position with the next 2 MiB of the file, or what is left of it. */
  ghost predicate ServesAt(server: Server, plain: seq<Byte>, next: nat)
    requires next < |plain|
  {
    var last := Min(next + CHUNK - 1, |plain| - 1);
    && server(next).Partial?
    && server(next).body == plain[next..last + 1]
    && server(next).last == last
  }

  ghost predicate ServesPieces(server: Server, plain: seq<Byte>) {
    forall next: nat | next < |plain| :: ServesAt(server, plain, next)
  }

  lemma {:induction false} DownloadRebuilds(server: Server, plain: seq<Byte>, next: nat)
    requires ServesPieces(server, plain) && next < |plain|
    ensures Bodies(Download(server, |plain|, next)) == plain[next..]
    ensures |Download(server, |plain|, next)| == Pieces(|plain| - next)
    decreases |plain| - next
  {
    var r, last := server(next), Min(next + CHUNK - 1, |plain| - 1);
    assert ServesAt(server, plain, next);
    OnePieceLess(|plain| - next);
    if last + 1 < |plain| {
      DownloadRebuilds(server, plain, last + 1);
      BodiesCons(r, Download(server, |plain|, last + 1));
      assert plain[next..last + 1] + plain[last + 1..] == plain[next..];
    } else {
      BodiesCons(r, []);
      assert [r] + [] == [r] && plain[next..last + 1] == plain[next..];
    }
  }

  /** No range at first, then open-ended ranges from the byte after the last one reported. */
  function RangeHeader(next: nat): string {
    if next == 0 then "" else OpenRange(next)
  }

  lemma FirstRange(next: nat, size: nat)
    requires next < size
    ensures RangeOf(RangeHeader(next), size) == (next, Min(next + CHUNK - 1, size - 1))
  {
    OpenRangeParses(next);
  }

  function ProxyServer(w: World, data: string): Server {
    (next: nat) => Answer(w, Request("abysscdn", data, RangeHeader(next)))
  }

  lemma AnswerToRange(w: World, req: Request, info: Info, s: nat, e: int)
    requires req.kind == "abysscdn" && InfoOf(w, req.data) == Some(info)
    requires RangeOf(req.range, info.size) == (s, e)
    ensures Answer(w, req) == AnswerRange(w, info, s, e)
  {
  }

  lemma ProxyDelivers(w: World, data: string, info: Info, file: seq<Byte>, next: nat, last: nat)
    requires InfoOf(w, data) == Some(info) && Honours(w, info.url, file) && info.size == |file|
    requires next < |file| && last == Min(next + CHUNK - 1, |file| - 1)
    ensures Delivers(w, info, file, ProxyServer(w, data)(next), next, last)
  {
    var req := Request("abysscdn", data, RangeHeader(next));
    assert Answer(w, req) == AnswerRange(w, info, next, last) by {
      FirstRange(next, |file|);
      AnswerToRange(w, req, info, next, last);
    }
    RangeIsSlice(w, info, file, next, last);
  }

  lemma ProxyServesPieces(w: World, data: string, info: Info, file: seq<Byte>)
    requires InfoOf(w, data) == Some(info) && Honours(w, info.url, file) && info.size == |file|
    ensures ServesPieces(ProxyServer(w, data), Plain(w, info, file))
  {
    var server, plain := ProxyServer(w, data), Plain(w, info, file);
    forall next: nat | next < |plain| ensures ServesAt(server, plain, next) {
      var last := Min(next + CHUNK - 1, |file| - 1);
      ProxyDelivers(w, data, info, file, next, last);
      DeliveredServes(w, info, file, server, next, last);
    }
  }

  lemma DeliveredServes(w: World, info: Info, file: seq<Byte>, server: Server, next: nat, last: nat)
    requires next < |file| && last == Min(next + CHUNK - 1, |file| - 1)
    requires Delivers(w, info, file, server(next), next, last)
    ensures ServesAt(server, Plain(w, info, file), next)
  {
  }

  /** Whoever holds a payload that names the file can play all of it. */
  lemma PayloadPlaysFile(w: World, data: string, info: Info, file: seq<Byte>)
    requires InfoOf(w, data) == Some(info) && Honours(w, info.url, file) && info.size == |file| > 0
    ensures var responses := Download(ProxyServer(w, data), |file|, 0);
            Bodies(responses) == Plain(w, info, file) && |responses| == Pieces(|file|)
  {
    var plain := Plain(w, info, file);
    ProxyServesPieces(w, data, info, file);
    DownloadRebuilds(ProxyServer(w, data), plain, 0);
    assert plain[0..] == plain && |plain| == |file|;
  }

  /** The address the spider prints is such a payload, decoded once by the framework or not at all. */
  lemma AddressPlaysFile(w: World, info: Info, file: seq<Byte>, data: string)
    requires w.loads(w.dumps(info)) == Some(info) && Honours(w, info.url, file) && info.size == |file| > 0
    requires data == Payload.Sent(w.dumps(info)) || data == Payload.Unquote(Payload.Sent(w.dumps(info)))
    ensures var responses := Download(ProxyServer(w, data), |file|, 0);
            Bodies(responses) == Plain(w, info, file) && |responses| == Pieces(|file|)
  {
    assert InfoOf(w, data) == Some(info) by { Payload.PayloadArrives(w.dumps(info)); }
    PayloadPlaysFile(w, data, info, file);
  }
}
