/** One connection: a bounded read, a resolution, a streamed answer (src/conn.rs),
    and the buffered library path beside it (src/lib.rs). */
module Conn {
  import opened Wrappers
  import opened Bytes
  import opened Kernel
  import opened Selector
  import opened Root
  import opened Policy
  import opened Listing
  import opened ListingFacts
  import Utf8

  const CHUNK_SIZE := 64 * 1024

  /** A time-out is an error of the read or the write it falls in. */
  datatype IoError = ReadFailed | WriteFailed

  datatype Response = FileResponse(fd: Ino) | BytesResponse(body: Bytes)

  // -------------------------------------------------------- reading a line

  function FirstLine(sent: Bytes): Bytes
  {
    if sent == [] || sent[0] == LF then [] else [sent[0]] + FirstLine(sent[1..])
  }

  /** Reading the whole line first, however long: `sent` is all the client sends,
      and then the stream ends or, with `fails`, a read reports an error. */
  function WholeLine(sent: Bytes, fails: bool): Result<Option<Bytes>, IoError>
  {
    if LF !in sent && fails then Err(ReadFailed)
    else Ok(if Utf8.Valid(FirstLine(sent)) then Some(FirstLine(sent)) else None)
  }

  function BoundedLine(sent: Bytes, fails: bool): Result<Option<Bytes>, IoError>
  {
    if |FirstLine(sent)| > MAX_SELECTOR_BYTES + 1 then Ok(None) else WholeLine(sent, fails)
  }

  lemma {:induction false} FirstLineIs(line: Bytes, rest: Bytes)
    requires LF !in line
    ensures FirstLine(line + [LF] + rest) == line && FirstLine(line) == line
  {
    if line == [] {
      assert line + [LF] + rest == [LF] + rest;
    } else {
      FirstLineIs(line[1..], rest);
      assert (line + [LF] + rest)[1..] == line[1..] + [LF] + rest;
      assert line == [line[0]] + line[1..];
    }
  }

  lemma {:induction false} LongerLine(line: Bytes, more: Bytes)
    requires LF !in line
    ensures |FirstLine(line + more)| >= |line|
  {
    if line == [] {
    } else {
      assert (line + more)[1..] == line[1..] + more;
      LongerLine(line[1..], more);
    }
  }

  lemma {:induction false} FirstLineEnds(sent: Bytes)
    ensures LF !in FirstLine(sent)
  {
    if sent != [] && sent[0] != LF {
      FirstLineEnds(sent[1..]);
    }
  }

  /** The loop of the source: a byte at a time, never more than 1025 of them kept. */
  method ReadSelector(sent: Bytes, fails: bool) returns (r: Result<Option<Bytes>, IoError>)
    ensures r == BoundedLine(sent, fails)
    ensures r.Ok? && r.value.Some? ==> |r.value.value| <= MAX_SELECTOR_BYTES + 1
  {
    var buf: Bytes := [];
    var next := 0;
    while true
      invariant next <= |sent| && buf == sent[..next] && LF !in buf
      invariant |buf| <= MAX_SELECTOR_BYTES + 1
      decreases |sent| - next
    {
      if next == |sent| {
        assert buf == sent;
        FirstLineIs(buf, []);
        if fails {
          return Err(ReadFailed);
        }
        break;
      }
      var byte := sent[next];
      if byte == LF {
        assert sent == buf + [LF] + sent[next + 1..];
        FirstLineIs(buf, sent[next + 1..]);
        break;
      }
      if |buf| > MAX_SELECTOR_BYTES {
        assert sent == sent[..next + 1] + sent[next + 1..];
        LongerLine(sent[..next + 1], sent[next + 1..]);
        return Ok(None);
      }
      buf := buf + [byte];
      next := next + 1;
    }
    r := Ok(if Utf8.Valid(buf) then Some(buf) else None);
  }

  /** What is asked for once the line has been parsed; nothing for a refused one. */
  function Asked(line: Result<Option<Bytes>, IoError>): Result<Option<Request>, IoError>
  {
    match line
    case Err(e) => Err(e)
    case Ok(None) => Ok(None)
    case Ok(Some(s)) => Ok(match Parse(s) case Ok(request) => Some(request) case Err(_) => None)
  }

  /** The bound changes no outcome, except that an overlong line is answered
      before a later read error can be met. */
  lemma BoundedReaderRefines(sent: Bytes, fails: bool)
    ensures Asked(BoundedLine(sent, fails)) == Asked(WholeLine(sent, fails)) <==>
            !(fails && LF !in sent && |sent| > MAX_SELECTOR_BYTES + 1)
  {
    if LF !in sent {
      FirstLineIs(sent, []);
    }
    if |FirstLine(sent)| > MAX_SELECTOR_BYTES + 1 {
      assert |StripCr(FirstLine(sent))| > MAX_SELECTOR_BYTES;
    }
  }

  /** 1026 bytes and then a failing read: answered, though the line never ended. */
  lemma OverlongHidesError()
    ensures var sent: Bytes := seq(MAX_SELECTOR_BYTES + 2, _ => 97);
            Asked(BoundedLine(sent, true)) == Ok(None) && Asked(WholeLine(sent, true)) == Err(ReadFailed)
  {
    var sent: Bytes := seq(MAX_SELECTOR_BYTES + 2, _ => 97);
    FirstLineIs(sent, []);
  }

  /** Whatever follows the first newline has no effect. */
  lemma LaterBytesIgnored(line: Bytes, rest: Bytes, other: Bytes, fails: bool, failsToo: bool)
    requires LF !in line
    ensures BoundedLine(line + [LF] + rest, fails) == BoundedLine(line + [LF] + other, failsToo)
  {
    FirstLineIs(line, rest);
    FirstLineIs(line, other);
  }

  /** What a line is read as: itself if it fits and is UTF-8, and nothing if not. A
      line that the client does not end with a newline is ended by the stream, or
      lost with a failing read if it had not yet grown too long. */
  lemma LineRead(line: Bytes, rest: Bytes, fails: bool)
    requires LF !in line
    ensures BoundedLine(line + [LF] + rest, fails) ==
            Ok(if |line| <= MAX_SELECTOR_BYTES + 1 && Utf8.Valid(line) then Some(line) else None)
    ensures BoundedLine(line, fails) ==
            if |line| <= MAX_SELECTOR_BYTES + 1 && fails then Err(ReadFailed)
            else BoundedLine(line + [LF] + rest, fails)
  {
    FirstLineIs(line, rest);
    assert LF in line + [LF] + rest;
  }

  // ------------------------------------------------------------- answering

  function RespondDir(r: Root, w: World, dir: Ino, t: nat): Response
  {
    var index := ClassifyChild(r, w, dir, INDEX, t);
    if index.val.Some? && index.val.value.File? then FileResponse(index.val.value.fd)
    else BytesResponse(Generated(r, w, dir, index.t))
  }

  function Respond(r: Root, w: World, selector: Bytes, t: nat): Response
  {
    match Parse(selector)
    case Err(_) => BytesResponse(NOT_FOUND)
    case Ok(request) =>
      var resolved := ResolveRequest(r, w, request, t);
      match resolved.val
      case Some(File(fd)) => FileResponse(fd)
      case Some(Dir(fd)) => RespondDir(r, w, fd, resolved.t)
      case None => BytesResponse(NOT_FOUND)
  }

  function Contents(fs: Fs, response: Response): Bytes
  {
    match response
    case FileResponse(fd) => fs(fd).content
    case BytesResponse(body) => body
  }

  /** How much one `read` returns: at least a byte until the end of the file, at
      most a chunk, and otherwise whatever the kernel offers. */
  function ReadSize(offered: nat, remaining: nat): (n: nat)
    ensures n <= remaining && n <= CHUNK_SIZE && (n == 0 <==> remaining == 0)
  {
    var most := if remaining < CHUNK_SIZE then remaining else CHUNK_SIZE;
    if offered == 0 && most > 0 then 1 else if offered < most then offered else most
  }

  /** What a client gets of `bytes` if it takes at most `room` before a write
      fails, or all of it. */
  function Taken(bytes: Bytes, room: Option<nat>): (taken: Bytes)
    ensures taken <= bytes
  {
    match room
    case Some(n) => if n < |bytes| then bytes[..n] else bytes
    case None => bytes
  }

  /** Writes a buffer after what has been written, as far as the client takes it. */
  method WriteAll(written: Bytes, buf: Bytes, room: Option<nat>) returns (out: Bytes, failed: bool)
    requires Taken(written, room) == written
    ensures out == Taken(written + buf, room)
    ensures failed <==> out != written + buf
  {
    match room {
      case None => return written + buf, false;
      case Some(n) =>
        if n < |written| + |buf| {
          out := written + buf[..n - |written|];
          return out, true;
        }
        return written + buf, false;
    }
  }

  /** What has been sent of a body, and the error if there was one, when reading it
      fails after `readable` bytes and writing after `room`, if they fail at all. */
  predicate Delivered(
    body: Bytes, readable: Option<nat>, room: Option<nat>, out: Bytes, error: Option<IoError>)
  {
    var read := Taken(body, readable);
    && out == Taken(read, room)
    && error == if out != read then Some(WriteFailed)
                else if readable.Some? && readable.value <= |body| then Some(ReadFailed)
                else None
  }

  /** Chunk by chunk until the file ends, a read fails or a write fails. */
  method StreamFile(content: Bytes, schedule: nat -> nat, readable: Option<nat>, room: Option<nat>)
    returns (out: Bytes, error: Option<IoError>)
    ensures Delivered(content, readable, room, out, error)
  {
    var left := Taken(content, readable);
    out := [];
    var calls, next := 0, 0;
    while true
      invariant next <= |left| && out == left[..next] == Taken(left[..next], room)
      decreases |left| - next
    {
      if next == |left| && readable.Some? && readable.value <= |content| {
        return out, Some(ReadFailed);
      }
      var read := ReadSize(schedule(calls), |left| - next);
      if read == 0 {
        return out, None;
      }
      var buf := left[next..next + read];
      assert left[..next] + buf == left[..next + read];
      var failed;
      out, failed := WriteAll(out, buf, room);
      if failed {
        assert left[..next + read][..|out|] == left[..|out|];
        return out, Some(WriteFailed);
      }
      next := next + read;
      calls := calls + 1;
    }
  }

  method WriteResponse(
    fs: Fs, response: Response, schedule: nat -> nat, readable: Option<nat>, room: Option<nat>)
    returns (out: Bytes, error: Option<IoError>)
    ensures Delivered(Contents(fs, response), if response.FileResponse? then readable else None, room, out, error)
  {
    match response {
      case FileResponse(fd) => out, error := StreamFile(fs(fd).content, schedule, readable, room);
      case BytesResponse(body) =>
        var failed;
        out, failed := WriteAll([], body, room);
        assert [] + body == body;
        error := if failed then Some(WriteFailed) else None;
    }
  }

  function Reply(r: Root, fs: Fs, sent: Bytes, fails: bool): Result<Response, IoError>
  {
    match BoundedLine(sent, fails)
    case Err(e) => Err(e)
    case Ok(None) => Ok(BytesResponse(NOT_FOUND))
    case Ok(Some(selector)) => Ok(Respond(r, Frozen(fs), selector, 0))
  }

  function Answer(r: Root, fs: Fs, sent: Bytes, fails: bool): Result<Bytes, IoError>
  {
    match Reply(r, fs, sent, fails)
    case Err(e) => Err(e)
    case Ok(response) => Ok(Contents(fs, response))
  }

  /** The same, in terms of what was sent: a prefix as long as both limits allow,
      and the error of the limit that was met first, a write that fails meeting
      the bytes read before it. Only a whole body is sent without an error. */
  lemma DeliveredExactly(
    body: Bytes, readable: Option<nat>, room: Option<nat>, out: Bytes, error: Option<IoError>)
    requires Delivered(body, readable, room, out, error)
    ensures out <= body
    ensures readable.Some? ==> |out| <= readable.value
    ensures room.Some? ==> |out| <= room.value
    ensures error == None ==> out == body && (readable.Some? ==> readable.value > |body|)
    ensures error == Some(WriteFailed) ==>
              room.Some? && |out| == room.value < |body| && (readable.Some? ==> room.value < readable.value)
    ensures error == Some(ReadFailed) ==>
              readable.Some? && |out| == readable.value <= |body| && (room.Some? ==> readable.value <= room.value)
  {
  }

  /** What is answered to a line, by what it was read as. */
  lemma AnswerToRead(r: Root, fs: Fs, sent: Bytes, fails: bool, line: Bytes)
    requires BoundedLine(sent, fails) ==
             Ok(if |line| <= MAX_SELECTOR_BYTES + 1 && Utf8.Valid(line) then Some(line) else None)
    ensures Answer(r, fs, sent, fails) ==
            Ok(if Utf8.Valid(line) then Contents(fs, Respond(r, Frozen(fs), line, 0)) else NOT_FOUND)
  {
    if |line| > MAX_SELECTOR_BYTES + 1 {
      assert |StripCr(line)| > MAX_SELECTOR_BYTES;
    }
  }

  /** A client that ends its lines with CR and LF is answered like any other. */
  lemma CrLfIsLf(r: Root, fs: Fs, line: Bytes, rest: Bytes, fails: bool)
    requires CR !in line && LF !in line
    ensures Answer(r, fs, line + [CR, LF] + rest, fails) == Answer(r, fs, line + [LF] + rest, fails)
  {
    assert line + [CR, LF] + rest == (line + [CR]) + [LF] + rest;
    LineRead(line, rest, fails);
    LineRead(line + [CR], rest, fails);
    AnswerToRead(r, fs, line + [LF] + rest, fails, line);
    AnswerToRead(r, fs, (line + [CR]) + [LF] + rest, fails, line + [CR]);
    Utf8.ValidBefore(line, CR);
    CrAtEnd(line);
  }

  /** Nothing is written if the line cannot be read; otherwise the answer its line
      determines, up to the read of a file or the write that fails. */
  method Handle(
    r: Root, fs: Fs, sent: Bytes, fails: bool, schedule: nat -> nat, readable: Option<nat>, room: Option<nat>)
    returns (out: Bytes, error: Option<IoError>)
    ensures match Reply(r, fs, sent, fails)
            case Err(e) => out == [] && error == Some(e)
            case Ok(response) =>
              Delivered(Contents(fs, response), if response.FileResponse? then readable else None, room, out, error)
    ensures Answer(r, fs, sent, fails).Ok? ==> out <= Answer(r, fs, sent, fails).value
    ensures error == None ==> Answer(r, fs, sent, fails) == Ok(out)
    ensures Answer(r, fs, sent, fails).Err? ==> out == [] && error == Some(ReadFailed)
    ensures readable == None && room == None && Answer(r, fs, sent, fails).Ok? ==> error == None
    ensures room.Some? ==> |out| <= room.value
    ensures error == Some(WriteFailed) ==>
              room.Some? && |out| == room.value && Answer(r, fs, sent, fails).Ok? && out != Answer(r, fs, sent, fails).value
    ensures error == Some(ReadFailed) && Answer(r, fs, sent, fails).Ok? ==>
              readable.Some? && |out| == readable.value
  {
    var line := ReadSelector(sent, fails);
    var response: Response;
    match line {
      case Err(e) => return [], Some(e);
      case Ok(None) => response := BytesResponse(NOT_FOUND);
      case Ok(Some(selector)) => response := Respond(r, Frozen(fs), selector, 0);
    }
    out, error := WriteResponse(fs, response, schedule, readable, room);
    DeliveredExactly(Contents(fs, response), if response.FileResponse? then readable else None, room, out, error);
  }

  // ------------------------------------------------------ the library path

  function OpenIndex(r: Root, w: World, fs: Fs, dir: Ino, t: nat): Timed<Option<Bytes>>
  {
    var index := ClassifyChild(r, w, dir, INDEX, t);
    Timed(if index.val.Some? && index.val.value.File? then Some(fs(index.val.value.fd).content) else None,
          index.t)
  }

  /** Opens the root for this one request and buffers the whole answer. */
  function ServeSelector(platform: Platform, fs: Fs, root: Ino, selector: Bytes): Bytes
  {
    match Parse(selector)
    case Err(_) => NOT_FOUND
    case Ok(request) =>
      match Open(platform, fs, root)
      case None => NOT_FOUND
      case Some(r) =>
        var resolved := ResolveRequest(r, Frozen(fs), request, 2);
        match resolved.val
        case None => NOT_FOUND
        case Some(File(fd)) => fs(fd).content
        case Some(Dir(fd)) =>
          var index := OpenIndex(r, Frozen(fs), fs, fd, resolved.t);
          if index.val.Some? then index.val.value else Generated(r, Frozen(fs), fd, index.t)
  }

  lemma RespondDirTimeless(r: Root, fs: Fs, dir: Ino, t: nat, u: nat)
    ensures RespondDir(r, Frozen(fs), dir, t) == RespondDir(r, Frozen(fs), dir, u)
  {
    ClassifyIsPublished(r, fs, dir, INDEX, t);
    ClassifyIsPublished(r, fs, dir, INDEX, u);
    GeneratedIsBody(r, fs, dir, ClassifyChild(r, Frozen(fs), dir, INDEX, t).t);
    GeneratedIsBody(r, fs, dir, ClassifyChild(r, Frozen(fs), dir, INDEX, u).t);
  }

  /** A root that opens is the inode asked for, on the device it is on. It must open
      for anything to be walked from it, and when its mode and the process's own
      permissions let it be searched, opening is all that is needed. */
  lemma OpenedRoot(platform: Platform, fs: Fs, root: Ino)
    ensures var r := Root(root, fs(root).stat.dev, platform);
            && (Open(platform, fs, root).Some? ==> Open(platform, fs, root).value == r)
            && (RootWalkable(r, fs) <==>
                Open(platform, fs, root).Some? && fs(root).stat.otherExec && fs(root).daemonSearch)
  {
  }

  /** Without a root every selector gets the same answer. */
  lemma NoRootNothingServed(platform: Platform, fs: Fs, root: Ino, selector: Bytes)
    requires !TraverseOpens(platform, fs(root))
    ensures ServeSelector(platform, fs, root, selector) == NOT_FOUND
  {
  }

  /** Buffered and streamed, the contents are those of the same response, for a
      root that opens and for one that does not. */
  lemma BufferedIsResponse(platform: Platform, fs: Fs, root: Ino, r: Root, selector: Bytes)
    requires r == Root(root, fs(root).stat.dev, platform)
    ensures ServeSelector(platform, fs, root, selector) ==
            Contents(fs, Respond(r, Frozen(fs), selector, 0))
  {
    if Parse(selector).Ok? && Open(platform, fs, root).Some? {
      var request := Parse(selector).value;
      ResolveIsPublished(r, fs, request, 0);
      ResolveIsPublished(r, fs, request, 2);
      var published := Published(r, fs, request);
      if published.Some? && published.value.Dir? {
        RespondDirTimeless(r, fs, published.value.fd,
                           ResolveRequest(r, Frozen(fs), request, 0).t,
                           ResolveRequest(r, Frozen(fs), request, 2).t);
      }
    }
  }

  /** Bytes written to a client, whatever the schedule of short reads, are the
      bytes the buffered path returns, for every selector a line can carry, be the
      line ended by a newline or by the end of the stream. */
  lemma StreamingRefinesBuffering(
    platform: Platform, fs: Fs, root: Ino, r: Root, selector: Bytes, rest: Bytes, fails: bool)
    requires r == Root(root, fs(root).stat.dev, platform)
    requires LF !in selector && Utf8.Valid(selector)
    ensures Answer(r, fs, selector + [LF] + rest, fails) ==
            Ok(ServeSelector(platform, fs, root, selector))
    ensures Answer(r, fs, selector, false) == Ok(ServeSelector(platform, fs, root, selector))
  {
    FirstLineIs(selector, rest);
    assert LF in selector + [LF] + rest;
    BufferedIsResponse(platform, fs, root, r, selector);
    if |selector| > MAX_SELECTOR_BYTES + 1 {
      assert |StripCr(selector)| > MAX_SELECTOR_BYTES;
    }
  }
}
