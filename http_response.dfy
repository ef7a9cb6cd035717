/**
 * The client's HTTP 1.1 response reader for an IP camera stream: a status
 * line, header lines up to an empty line, and then frames separated by a
 * content boundary, each with its own headers and a content length. The
 * connection's input is the sequence of bytes still to be read; reading at
 * its end is what the stream reports as end of input.
 */
module HttpResponses {
  import opened Wrappers
  import opened Strings

  newtype byte = b: int | 0 <= b < 256

  /** Size of the read buffer, which also bounds a line. */
  const InputBufferSize: nat := 32768

  const LineFeed: byte := 10
  const CarriageReturn: byte := 13

  /** The (char) cast of a byte read from the stream. */
  function CharOf(b: byte): char {
    (b as int) as char
  }

  /** getBytes on one character: its low eight bits. */
  function ByteOf(c: char): byte {
    ((c as int) % 256) as byte
  }

  function Encode(s: string): (r: seq<byte>)
    ensures |r| == |s| && forall i :: 0 <= i < |s| ==> r[i] == ByteOf(s[i])
  {
    seq(|s|, i requires 0 <= i < |s| => ByteOf(s[i]))
  }

  function Decode(bs: seq<byte>): (r: string)
    ensures |r| == |bs| && forall i :: 0 <= i < |bs| ==> r[i] == CharOf(bs[i])
  {
    seq(|bs|, i requires 0 <= i < |bs| => CharOf(bs[i]))
  }

  /**
   * The rest of readLine after `line` has been collected: stops after a line
   * feed or at the end of input, skips carriage returns, and stops as soon as
   * the line is longer than the buffer. Returns the line and the input left.
   */
  function LineFrom(input: seq<byte>, line: string): (r: (string, seq<byte>))
    requires |line| <= InputBufferSize
    ensures |r.0| >= |line| && r.0[..|line|] == line && |r.0| <= InputBufferSize + 1
    ensures forall i :: |line| <= i < |r.0| ==> r.0[i] != '\n' && r.0[i] != '\r'
    ensures |r.1| <= |input| && r.1 == input[|input| - |r.1|..]
    ensures |r.0| > |line| ==> |r.1| < |input|
    decreases |input|
  {
    if |input| == 0 then (line, input)
    else if input[0] == LineFeed then (line, input[1..])
    else if input[0] == CarriageReturn then LineFrom(input[1..], line)
    else
      var longer := line + [CharOf(input[0])];
      if |longer| > InputBufferSize then (longer, input[1..])
      else LineFrom(input[1..], longer)
  }

  /** readLine on an open connection. */
  function ReadLineOf(input: seq<byte>): (string, seq<byte>) {
    LineFrom(input, "")
  }

  /** readLine: the empty line and nothing consumed on a closed connection. */
  function LineRead(open: bool, input: seq<byte>): (r: (string, seq<byte>))
    ensures |r.1| <= |input|
    ensures |r.0| > 0 ==> |r.1| < |input|
  {
    if open then ReadLineOf(input) else ("", input)
  }

  /** A byte that ends or is skipped within a line. */
  predicate IsLineControl(b: byte) {
    b == LineFeed || b == CarriageReturn
  }

  /**
   * What readLine reads back: a line of at most the buffer size that holds
   * no line control bytes, sent with "\r\n" or "\n", comes back whole and the
   * rest of the input stays.
   */
  lemma {:induction false} LineFromRoundTrip(text: seq<byte>, line: string, ending: seq<byte>, rest: seq<byte>)
    requires forall i :: 0 <= i < |text| ==> !IsLineControl(text[i])
    requires |line| + |text| <= InputBufferSize
    requires ending == [LineFeed] || ending == [CarriageReturn, LineFeed]
    ensures LineFrom(text + ending + rest, line) == (line + Decode(text), rest)
    decreases |text|
  {
    if |text| == 0 {
      assert text + ending + rest == ending + rest;
      LineFromAtEnding(line, ending, rest);
      assert line + Decode(text) == line;
    } else {
      var input := text + ending + rest;
      assert input[0] == text[0];
      assert input[1..] == text[1..] + ending + rest;
      var longer := line + [CharOf(text[0])];
      LineFromRoundTrip(text[1..], longer, ending, rest);
      DecodeCons(text);
      AppendAssoc(line, [CharOf(text[0])], Decode(text[1..]));
    }
  }

  /** The line ending is consumed and the line is done. */
  lemma LineFromAtEnding(line: string, ending: seq<byte>, rest: seq<byte>)
    requires |line| <= InputBufferSize
    requires ending == [LineFeed] || ending == [CarriageReturn, LineFeed]
    ensures LineFrom(ending + rest, line) == (line, rest)
  {
    if ending == [LineFeed] {
      LineFromAtFeed(line, rest);
    } else {
      LineFromAtFeed(line, rest);
      LineFromAtCrLf(line, rest);
    }
  }

  /** A carriage return before the line feed is skipped. */
  lemma LineFromAtCrLf(line: string, rest: seq<byte>)
    requires |line| <= InputBufferSize
    requires LineFrom([LineFeed] + rest, line) == (line, rest)
    ensures LineFrom([CarriageReturn, LineFeed] + rest, line) == (line, rest)
  {
    var input := [CarriageReturn, LineFeed] + rest;
    assert input[0] == CarriageReturn;
    assert input[1..] == [LineFeed] + rest;
  }

  /** A line feed ends the line. */
  lemma LineFromAtFeed(line: string, rest: seq<byte>)
    requires |line| <= InputBufferSize
    ensures LineFrom([LineFeed] + rest, line) == (line, rest)
  {
    assert ([LineFeed] + rest)[0] == LineFeed;
    assert ([LineFeed] + rest)[1..] == rest;
  }

  /** Concatenation regroups. */
  lemma AppendAssoc<T>(a: seq<T>, b: seq<T>, c: seq<T>)
    ensures (a + b) + c == a + (b + c)
  {
  }

  /** Decoding peels off the first byte. */
  lemma DecodeCons(bs: seq<byte>)
    requires |bs| > 0
    ensures Decode(bs) == [CharOf(bs[0])] + Decode(bs[1..])
  {
  }

  /** The round trip from an empty line, as readLine starts. */
  lemma ReadLineRoundTrip(text: seq<byte>, ending: seq<byte>, rest: seq<byte>)
    requires forall i :: 0 <= i < |text| ==> !IsLineControl(text[i])
    requires |text| <= InputBufferSize
    requires ending == [LineFeed] || ending == [CarriageReturn, LineFeed]
    ensures ReadLineOf(text + ending + rest) == (Decode(text), rest)
  {
    LineFromRoundTrip(text, "", ending, rest);
  }

  /**
   * readResponseCode: the second space-separated token of the status line
   * when there are more than two tokens and it is an int; otherwise the code
   * stays as it was.
   */
  function ResponseCodeOf(line: string, current: int): (r: int)
    ensures r == current || (|Split(line, ' ')| > 2 && ParseInt(Split(line, ' ')[1]) == Some(r))
  {
    var tokens := Split(line, ' ');
    if |tokens| > 2 then
      match ParseInt(tokens[1])
      case Some(code) => code
      case None => current
    else current
  }

  /** A status line "version code reason" yields its code. */
  lemma StatusLineCode(version: string, code: int, reason: string, current: int)
    requires version != "" && ' ' !in version
    requires reason != "" && ' ' !in reason
    requires InInt32(code)
    ensures ResponseCodeOf(version + " " + IntToString(code) + " " + reason, current) == code
  {
    var c := IntToString(code);
    var line := version + " " + c + " " + reason;
    assert ' ' !in c by {
      if code >= 0 {
        assert AllDigits(c);
      } else {
        assert c == "-" + NatToString(-code);
        assert AllDigits(NatToString(-code));
      }
    }
    assert line == version + [' '] + (c + [' '] + reason);
    SplitAllAfterPiece(version, c + [' '] + reason, ' ');
    SplitAllAfterPiece(c, reason, ' ');
    SplitAllWithoutSeparator(reason, ' ');
    assert SplitAll(line, ' ') == [version, c, reason];
    assert line[|version|] == ' ';
    assert DropTrailingEmpty([version, c, reason]) == [version, c, reason];
    ParseIntOfIntToString(code);
  }

  /** The status line without a reason phrase keeps the code unchanged: the trailing piece is dropped. */
  lemma StatusLineWithoutReason(version: string, code: int, current: int)
    requires version != "" && ' ' !in version
    requires InInt32(code)
    ensures ResponseCodeOf(version + " " + IntToString(code) + " ", current) == current
  {
    var c := IntToString(code);
    var line := version + " " + c + " ";
    assert ' ' !in c by {
      if code >= 0 {
        assert AllDigits(c);
      } else {
        assert c == "-" + NatToString(-code);
        assert AllDigits(NatToString(-code));
      }
    }
    assert line == version + [' '] + (c + [' '] + "");
    SplitAllAfterPiece(version, c + [' '] + "", ' ');
    SplitAllAfterPiece(c, "", ' ');
    assert SplitAll(line, ' ') == [version, c, ""];
    assert line[|version|] == ' ';
    assert DropTrailingEmpty([version, c, ""]) == [version, c];
  }

  /**
   * One header line: with a ':' after at least one character, the value
   * after the first ':' is stored under the lower-cased name before it;
   * any other line stores nothing.
   */
  function PutHeader(headers: map<string, string>, line: string): (r: map<string, string>)
    ensures r == headers || exists i :: 0 < i < |line| && line[i] == ':' && r == headers[ToLower(line[..i]) := line[i + 1..]]
  {
    var i := IndexOf(line, ":");
    if i > 0 then headers[ToLower(line[..i]) := line[i + 1..]] else headers
  }

  /**
   * Which header a line stores: with its first ':' at an index after the
   * start, the value after it under the lower-cased name before it; with
   * no ':', or one at the start, nothing.
   */
  lemma PutHeaderFirstColon(headers: map<string, string>, line: string)
    ensures forall i :: 0 < i < |line| && line[i] == ':' && ':' !in line[..i] ==>
              PutHeader(headers, line) == headers[ToLower(line[..i]) := line[i + 1..]]
    ensures ':' !in line || line[0] == ':' ==> PutHeader(headers, line) == headers
  {
    ColonOccursAt(line);
  }

  /** ":" occurs in a line exactly where the line has a ':'. */
  lemma ColonOccursAt(line: string)
    ensures forall j :: OccursAt(line, ":", j) <==> 0 <= j < |line| && line[j] == ':'
  {
    forall j | 0 <= j < |line|
      ensures OccursAt(line, ":", j) <==> line[j] == ':'
    {
      assert line[j..j + 1] == [line[j]];
    }
  }

  /** A "Name:value" line stores the value under the lower-cased name; a line without ':' stores nothing. */
  lemma PutHeaderLine(headers: map<string, string>, name: string, value: string, other: string)
    requires name != "" && ':' !in name
    requires ':' !in other
    ensures PutHeader(headers, name + ":" + value) == headers[ToLower(name) := value]
    ensures PutHeader(headers, other) == headers
  {
    var line := name + ":" + value;
    assert OccursAt(line, ":", |name|);
    assert forall j :: 0 <= j < |name| ==> !OccursAt(line, ":", j) by {
      forall j | 0 <= j < |name|
        ensures !OccursAt(line, ":", j)
      {
        assert line[j] == name[j];
      }
    }
    assert line[..|name|] == name;
    assert line[|name| + 1..] == value;
  }

  /**
   * readResponseHeaders: reads lines and stores their headers until it has
   * read an empty line. Returns the headers and the input left.
   */
  function HeadersFrom(open: bool, input: seq<byte>, headers: map<string, string>): (r: (map<string, string>, seq<byte>))
    ensures |r.1| <= |input|
    decreases |input|
  {
    var (line, rest) := LineRead(open, input);
    var stored := PutHeader(headers, line);
    if |line| > 0 then HeadersFrom(open, rest, stored) else (stored, rest)
  }

  /** The header block ends at the first empty line, and a closed connection reads no headers. */
  lemma HeadersEndAtEmptyLine(headers: map<string, string>, input: seq<byte>, rest: seq<byte>)
    ensures HeadersFrom(true, [CarriageReturn, LineFeed] + rest, headers) == (headers, rest)
    ensures HeadersFrom(false, input, headers) == (headers, input)
  {
    ReadLineRoundTrip([], [CarriageReturn, LineFeed], rest);
    assert [] + [CarriageReturn, LineFeed] + rest == [CarriageReturn, LineFeed] + rest;
  }

  /** A header block as sent: each line followed by "\r\n". */
  function HeaderBlock(lines: seq<seq<byte>>): seq<byte> {
    if lines == [] then [] else lines[0] + [CarriageReturn, LineFeed] + HeaderBlock(lines[1..])
  }

  /** The headers after storing each line in turn. */
  function StoredHeaders(headers: map<string, string>, lines: seq<seq<byte>>): map<string, string>
    decreases |lines|
  {
    if lines == [] then headers else StoredHeaders(PutHeader(headers, Decode(lines[0])), lines[1..])
  }

  /** Header lines readLine reads back whole: not empty, within the buffer, no line control bytes. */
  predicate HeaderLines(lines: seq<seq<byte>>) {
    forall k :: 0 <= k < |lines| ==>
      0 < |lines[k]| <= InputBufferSize && forall i :: 0 <= i < |lines[k]| ==> !IsLineControl(lines[k][i])
  }

  /**
   * A header block followed by an empty line is read line by line: each
   * line's header is stored in order, and reading stops right after the
   * empty line.
   */
  lemma {:induction false} HeaderBlockRead(headers: map<string, string>, lines: seq<seq<byte>>, rest: seq<byte>)
    requires HeaderLines(lines)
    ensures HeadersFrom(true, HeaderBlock(lines) + [CarriageReturn, LineFeed] + rest, headers) == (StoredHeaders(headers, lines), rest)
    decreases |lines|
  {
    if lines == [] {
      HeadersEndAtEmptyLine(headers, [], rest);
      assert HeaderBlock(lines) + [CarriageReturn, LineFeed] + rest == [CarriageReturn, LineFeed] + rest;
    } else {
      HeaderLineRead(headers, lines, rest);
      HeaderBlockRead(PutHeader(headers, Decode(lines[0])), lines[1..], rest);
    }
  }

  /** The first line of a header block is read and stored; the rest of the block follows. */
  lemma HeaderLineRead(headers: map<string, string>, lines: seq<seq<byte>>, rest: seq<byte>)
    requires HeaderLines(lines) && lines != []
    ensures HeaderLines(lines[1..])
    ensures HeadersFrom(true, HeaderBlock(lines) + [CarriageReturn, LineFeed] + rest, headers)
            == HeadersFrom(true, HeaderBlock(lines[1..]) + [CarriageReturn, LineFeed] + rest, PutHeader(headers, Decode(lines[0])))
  {
    var tail := HeaderBlock(lines[1..]) + [CarriageReturn, LineFeed] + rest;
    AppendAssoc(lines[0] + [CarriageReturn, LineFeed], HeaderBlock(lines[1..]), [CarriageReturn, LineFeed] + rest);
    assert HeaderBlock(lines) + [CarriageReturn, LineFeed] + rest == lines[0] + [CarriageReturn, LineFeed] + tail;
    ReadLineRoundTrip(lines[0], [CarriageReturn, LineFeed], tail);
    assert 0 < |lines[0]|;
    forall k | 0 <= k < |lines[1..]|
      ensures 0 < |lines[1..][k]| <= InputBufferSize && forall i :: 0 <= i < |lines[1..][k]| ==> !IsLineControl(lines[1..][k][i])
    {
      assert lines[1..][k] == lines[k + 1];
    }
  }

  /** getContentBoundary: the text after "boundary=" in the content type, when that stands after its start. */
  function ContentBoundary(headers: map<string, string>): (r: string)
    ensures r != "" ==> "content-type" in headers
    ensures r != "" ==> exists i :: 0 < i && OccursAt(headers["content-type"], "boundary=", i) && r == headers["content-type"][i + 9..]
  {
    if "content-type" in headers then
      var value := headers["content-type"];
      var index := IndexOf(value, "boundary=");
      if index > 0 then value[index + 9..] else ""
    else ""
  }

  /** A content type with a boundary parameter yields the boundary. */
  lemma ContentBoundaryOfType(mediaType: string, boundary: string)
    requires mediaType != ""
    requires forall i :: 0 <= i < |mediaType| ==> !OccursAt(mediaType + "boundary=" + boundary, "boundary=", i)
    ensures ContentBoundary(map["content-type" := mediaType + "boundary=" + boundary]) == boundary
  {
    var value := mediaType + "boundary=" + boundary;
    assert OccursAt(value, "boundary=", |mediaType|);
    assert value[|mediaType| + 9..] == boundary;
  }

  /** getContentLength: the trimmed content length as an int, or -1 when missing or malformed. */
  function ContentLength(headers: map<string, string>): (r: int)
    ensures r == -1 || InInt32(r)
    ensures "content-length" !in headers ==> r == -1
    ensures "content-length" in headers && ParseInt(Trim(headers["content-length"])).Some? ==>
      r == ParseInt(Trim(headers["content-length"])).value
    ensures "content-length" in headers && ParseInt(Trim(headers["content-length"])).None? ==> r == -1
  {
    if "content-length" in headers then
      match ParseInt(Trim(headers["content-length"]))
      case Some(n) => n
      case None => -1
    else -1
  }

  /** A length header as a server sends it, "Content-Length: n", reads back as n. */
  lemma ContentLengthOfHeader(headers: map<string, string>, n: int)
    requires InInt32(n)
    ensures ContentLength(headers["content-length" := " " + IntToString(n)]) == n
  {
    var s := IntToString(n);
    if n < 0 {
      assert s == "-" + NatToString(-n);
      assert AllDigits(NatToString(-n));
      assert s[|s| - 1] == NatToString(-n)[|NatToString(-n)| - 1];
    } else {
      assert AllDigits(s);
    }
    TrimAfterBlank(s);
    ParseIntOfIntToString(n);
  }

  /** The frame marker: the boundary with a "--" prefix unless it already starts with "--". */
  function BoundaryMarker(boundary: string): (r: string)
    ensures StartsWith(r, "--")
    ensures |r| >= |boundary| && r[|r| - |boundary|..] == boundary
    ensures StartsWith(boundary, "--") <==> r == boundary
  {
    if StartsWith(boundary, "--") then boundary else "--" + boundary
  }

  /** Marking twice is marking once, so the cached marker never grows. */
  lemma BoundaryMarkerIdempotent(boundary: string)
    ensures BoundaryMarker(BoundaryMarker(boundary)) == BoundaryMarker(boundary)
    ensures |BoundaryMarker(boundary)| >= 2
  {
  }

  /** The marker stands in `input` right before index `n`. */
  predicate MarkerEndsAt(input: seq<byte>, n: int, marker: seq<byte>) {
    |marker| <= n <= |input| && input[n - |marker|..n] == marker
  }

  /**
   * The scan of readFrame for the marker, `matched` bytes of it already
   * seen: on a mismatch it starts over at the next byte. Returns the number
   * of bytes read up to the end of the marker, or None once the input runs
   * out.
   */
  function ScanBoundary(input: seq<byte>, marker: seq<byte>, matched: nat): (r: Option<nat>)
    requires matched < |marker|
    ensures r.Some? ==> 0 < r.value <= |input|
    decreases |input|
  {
    if |input| == 0 then None
    else if input[0] == marker[matched] then
      if matched + 1 == |marker| then Some(1)
      else
        match ScanBoundary(input[1..], marker, matched + 1)
        case Some(n) => Some(n + 1)
        case None => None
    else
      match ScanBoundary(input[1..], marker, 0)
      case Some(n) => Some(n + 1)
      case None => None
  }

  /**
   * What the scan skips ends with the whole marker, or, when no restart
   * happened, is exactly the marker's unmatched part.
   */
  lemma {:induction false} ScanSkipsToMarker(input: seq<byte>, marker: seq<byte>, matched: nat)
    requires matched < |marker|
    ensures ScanBoundary(input, marker, matched).Some? ==>
      var n := ScanBoundary(input, marker, matched).value;
      MarkerEndsAt(input, n, marker) || input[..n] == marker[matched..]
    decreases |input|
  {
    if |input| > 0 {
      var tail := input[1..];
      if input[0] == marker[matched] {
        if matched + 1 == |marker| {
          assert input[..1] == marker[matched..];
        } else {
          ScanSkipsToMarker(tail, marker, matched + 1);
          var r := ScanBoundary(tail, marker, matched + 1);
          if r.Some? {
            if MarkerEndsAt(tail, r.value, marker) {
              MarkerEndShifts(input, r.value + 1, marker);
            } else {
              MatchedPartShifts(input, r.value + 1, marker, matched);
            }
          }
        }
      } else {
        ScanSkipsToMarker(tail, marker, 0);
        var r := ScanBoundary(tail, marker, 0);
        if r.Some? {
          MarkerEndShifts(input, r.value + 1, marker);
        }
      }
    }
  }

  /** A marker ending in the input's tail ends one byte later in the input. */
  lemma MarkerEndShifts(input: seq<byte>, n: int, marker: seq<byte>)
    requires 1 <= n <= |input| && MarkerEndsAt(input[1..], n - 1, marker)
    ensures MarkerEndsAt(input, n, marker)
  {
    assert input[n - |marker|..n] == input[1..][n - 1 - |marker|..n - 1];
  }

  /** A matched byte followed by the rest of the marker's unmatched part is that whole part. */
  lemma MatchedPartShifts(input: seq<byte>, n: int, marker: seq<byte>, matched: nat)
    requires 1 <= n <= |input| && matched + 1 < |marker| && input[0] == marker[matched]
    requires input[1..][..n - 1] == marker[matched + 1..]
    ensures input[..n] == marker[matched..]
  {
    assert input[..n] == [input[0]] + input[1..][..n - 1];
  }

  /** A scan from the start ends right after a whole marker. */
  lemma ScanEndsAfterMarker(input: seq<byte>, marker: seq<byte>)
    requires |marker| > 0
    ensures ScanBoundary(input, marker, 0).Some? ==> MarkerEndsAt(input, ScanBoundary(input, marker, 0).value, marker)
  {
    ScanSkipsToMarker(input, marker, 0);
  }

  /** Input that starts with the marker is cut right after it. */
  lemma {:induction false} ScanFindsLeadingMarker(marker: seq<byte>, matched: nat, rest: seq<byte>)
    requires matched < |marker|
    ensures ScanBoundary(marker[matched..] + rest, marker, matched) == Some(|marker| - matched)
    decreases |marker| - matched
  {
    var input := marker[matched..] + rest;
    assert input[0] == marker[matched];
    if matched + 1 < |marker| {
      assert input[1..] == marker[matched + 1..] + rest;
      ScanFindsLeadingMarker(marker, matched + 1, rest);
    } else {
      assert input[1..] == rest;
    }
  }

  /**
   * The scan does not look at the mismatching byte again: "---b" does not
   * yield the marker "--b" that its last three bytes spell.
   */
  lemma ScanRestartSkipsOverlap()
    ensures ScanBoundary([45, 45, 45, 98], [45, 45, 98], 0).None?
  {
    var marker: seq<byte> := [45, 45, 98];
    var s4: seq<byte> := [45, 45, 45, 98];
    var s3: seq<byte> := [45, 45, 98];
    var s2: seq<byte> := [45, 98];
    var s1: seq<byte> := [98];
    assert s4[1..] == s3 && s3[1..] == s2 && s2[1..] == s1 && s1[1..] == [];
    assert ScanBoundary(s1, marker, 0) == ScanBoundary([], marker, 0);
    assert ScanBoundary(s2, marker, 2) == ScanBoundary(s1, marker, 0);
    assert ScanBoundary(s3, marker, 1) == ScanBoundary(s2, marker, 2);
    assert ScanBoundary(s4, marker, 0) == ScanBoundary(s3, marker, 1);
  }

  class HttpResponse {
    /** The bytes the server has yet to deliver. */
    var input: seq<byte>
    /** Whether the connection is open. */
    var open: bool
    var headers: map<string, string>
    /** The response code, -1 while no valid code has been read. */
    var responseCode: int
    /** The frame marker's bytes, computed on first use. */
    var boundarySequence: Option<seq<byte>>

    /** A cached marker holds at least its "--". */
    predicate Valid()
      reads this
    {
      boundarySequence.Some? ==> |boundarySequence.value| >= 2
    }

    /**
     * The constructor: without a connection nothing is read; with one, the
     * response code is read, and the headers too when it is 200.
     */
    constructor(connection: Option<seq<byte>>)
      ensures Valid() && open == connection.Some? && boundarySequence.None?
      ensures connection.None? ==> responseCode == -1 && headers == map[] && input == []
      ensures connection.Some? ==>
        var (line, rest) := ReadLineOf(connection.value);
        responseCode == ResponseCodeOf(line, -1)
        && (responseCode == 200 ==> (headers, input) == HeadersFrom(true, rest, map[]))
        && (responseCode != 200 ==> headers == map[] && input == rest)
    {
      headers := map[];
      responseCode := -1;
      boundarySequence := None;
      open := connection.Some?;
      input := if connection.Some? then connection.value else [];
      new;
      if connection.Some? {
        ReadResponseCode();
        if IsHttpOk() {
          ReadResponseHeaders();
        }
      }
    }

    /** close. */
    method Close()
      modifies this`open
      ensures !open
    {
      open := false;
    }

    predicate IsHttpOk()
      reads this
    {
      responseCode == 200
    }

    /** readLine. */
    method ReadLine() returns (line: string)
      modifies this`input
      ensures (line, input) == LineRead(open, old(input))
    {
      line := "";
      if !open {
        return;
      }
      while true
        invariant |line| <= InputBufferSize
        invariant ReadLineOf(old(input)) == LineFrom(input, line)
        decreases |input|
      {
        if |input| == 0 {
          return;
        }
        var b := input[0];
        input := input[1..];
        if b == LineFeed {
          return;
        } else if b != CarriageReturn {
          line := line + [CharOf(b)];
          if |line| > InputBufferSize {
            return;
          }
        }
      }
    }

    /** readResponseCode. */
    method ReadResponseCode()
      modifies this`input, this`responseCode
      ensures var (line, rest) := LineRead(open, old(input));
        input == rest && responseCode == ResponseCodeOf(line, old(responseCode))
    {
      var line := ReadLine();
      var tokens := Split(line, ' ');
      if |tokens| > 2 {
        var code := ParseInt(tokens[1]);
        if code.Some? {
          responseCode := code.value;
        }
      }
    }

    /** readResponseHeaders. */
    method ReadResponseHeaders()
      modifies this`input, this`headers
      ensures (headers, input) == HeadersFrom(open, old(input), old(headers))
    {
      while true
        invariant HeadersFrom(open, old(input), old(headers)) == HeadersFrom(open, input, headers)
        decreases |input|
      {
        ghost var before := input;
        var line := ReadLine();
        var splitIndex := IndexOf(line, ":");
        if splitIndex > 0 {
          headers := headers[ToLower(line[..splitIndex]) := line[splitIndex + 1..]];
        }
        if |line| == 0 {
          return;
        }
      }
    }

    /** getContentBoundarySequence: computed once, then the cached bytes. */
    method GetContentBoundarySequence() returns (marker: seq<byte>)
      requires Valid()
      modifies this`boundarySequence
      ensures Valid()
      ensures old(boundarySequence).Some? ==> boundarySequence == old(boundarySequence)
      ensures old(boundarySequence).None? ==> boundarySequence == Some(Encode(BoundaryMarker(ContentBoundary(headers))))
      ensures boundarySequence == Some(marker)
    {
      if boundarySequence.None? {
        BoundaryMarkerIdempotent(ContentBoundary(headers));
        boundarySequence := Some(Encode(BoundaryMarker(ContentBoundary(headers))));
      }
      marker := boundarySequence.value;
    }

    /**
     * readBinary: copies the next `count` bytes into the frame. When the
     * input ends first, the bytes there are copied and the read fails.
     */
    method ReadBinary(frame: array<byte>, count: nat) returns (bytesRead: int, failed: bool)
      requires count <= frame.Length
      modifies frame, this`input
      ensures !open ==> bytesRead == 0 && !failed && input == old(input) && frame[..] == old(frame[..])
      ensures open && count <= |old(input)| ==>
        (bytesRead == count && !failed
        && frame[..count] == old(input)[..count] && frame[count..] == old(frame[count..])
        && input == old(input)[count..])
      ensures open && count > |old(input)| ==>
        (failed && input == []
        && frame[..|old(input)|] == old(input) && frame[|old(input)|..] == old(frame[..])[|old(input)|..])
    {
      bytesRead := 0;
      failed := false;
      if !open {
        return;
      }
      while bytesRead < count
        invariant 0 <= bytesRead <= count
        invariant bytesRead <= |old(input)| && input == old(input)[bytesRead..]
        invariant frame[..bytesRead] == old(input)[..bytesRead]
        invariant frame[bytesRead..] == old(frame[bytesRead..])
      {
        if |input| == 0 {
          failed := true;
          return;
        }
        frame[bytesRead] := input[0];
        input := input[1..];
        bytesRead := bytesRead + 1;
      }
    }

    /**
     * The scanning loop of readFrame: reads byte by byte until the marker
     * has been read, or the input ends.
     */
    method SkipToBoundary(marker: seq<byte>) returns (found: bool)
      requires |marker| > 0
      modifies this`input
      ensures var n := ScanBoundary(old(input), marker, 0);
        (found <==> n.Some?) && (found ==> input == old(input)[n.value..]) && (!found ==> input == [])
    {
      var matched := 0;
      while true
        invariant 0 <= matched < |marker|
        invariant |input| <= |old(input)| && input == old(input)[|old(input)| - |input|..]
        invariant var n := ScanBoundary(input, marker, matched);
          ScanBoundary(old(input), marker, 0) == (if n.Some? then Some(n.value + |old(input)| - |input|) else None)
        decreases |input|
      {
        if |input| == 0 {
          return false;
        }
        var b := input[0];
        input := input[1..];
        if b == marker[matched] {
          matched := matched + 1;
          if matched == |marker| {
            return true;
          }
        } else {
          matched := 0;
        }
      }
    }

    /**
     * The rest of readFrame once the marker has been read: skips the rest of
     * the marker's line, reads the frame's headers, and reads the frame when
     * its length is positive and below the buffer's; otherwise skips it.
     */
    method ReadMatchedFrame(frame: array<byte>) returns (size: int, failed: bool)
      requires open
      modifies frame, this`input, this`headers
      ensures var (h, rest) := HeadersFrom(true, ReadLineOf(old(input)).1, old(headers));
        var length := ContentLength(h);
        headers == h
        && (0 < length < frame.Length && length <= |rest| ==>
              size == length && !failed && frame[..length] == rest[..length] && input == rest[length..])
        && (0 < length < frame.Length && length > |rest| ==> failed && input == [])
        && (!(0 < length < frame.Length) ==> size == 0 && !failed && input == rest && frame[..] == old(frame[..]))
    {
      var _ := ReadLine();
      ReadResponseHeaders();
      var frameSize := ContentLength(headers);
      if 0 < frameSize < frame.Length {
        size, failed := ReadBinary(frame, frameSize);
      } else {
        size, failed := 0, false;
      }
    }

    /** readFrame: the frame after the next marker, or 0 when the input ends first. */
    method ReadFrame(frame: array<byte>) returns (size: int, failed: bool)
      requires Valid()
      modifies frame, this`input, this`headers, this`boundarySequence
      ensures Valid()
      ensures old(boundarySequence).Some? ==> boundarySequence == old(boundarySequence)
      ensures old(boundarySequence).None? ==> boundarySequence == Some(Encode(BoundaryMarker(ContentBoundary(old(headers)))))
      ensures !open ==> size == 0 && !failed && input == old(input) && headers == old(headers) && frame[..] == old(frame[..])
      ensures open ==>
        var found := ScanBoundary(old(input), boundarySequence.value, 0);
        (found.None? ==> size == 0 && !failed && input == [] && headers == old(headers) && frame[..] == old(frame[..]))
        && (found.Some? ==>
          var (h, rest) := HeadersFrom(true, ReadLineOf(old(input)[found.value..]).1, old(headers));
          var length := ContentLength(h);
          headers == h
          && (0 < length < frame.Length && length <= |rest| ==>
                size == length && !failed && frame[..length] == rest[..length] && input == rest[length..])
          && (0 < length < frame.Length && length > |rest| ==> failed && input == [])
          && (!(0 < length < frame.Length) ==> size == 0 && !failed && input == rest && frame[..] == old(frame[..])))
    {
      var marker := GetContentBoundarySequence();
      if !open {
        return 0, false;
      }
      var found := SkipToBoundary(marker);
      if !found {
        return 0, false;
      }
      size, failed := ReadMatchedFrame(frame);
    }
  }
}
