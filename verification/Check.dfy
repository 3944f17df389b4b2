/** `buffetcar check`: one verdict per selector (src/check.rs). */
module Check {
  import opened Wrappers
  import opened Bytes
  import opened Kernel
  import opened Selector
  import opened Root
  import opened Policy
  import opened Diagnosis
  import opened Listing
  import opened ListingFacts
  import opened Conn

  datatype Public = RegularFile | PublicIndex | PublicDirectory

  datatype Refusal = BadSelector(why: SelectorReject) | Refused(reason: RejectReason)

  datatype Line = Line(selector: Bytes, verdict: Result<Public, Refusal>)

  function CheckOne(r: Root, fs: Fs, selector: Bytes): Result<Public, Refusal>
  {
    match Parse(selector)
    case Err(why) => Err(BadSelector(why))
    case Ok(request) =>
      var target := DiagnoseRequest(r, Frozen(fs), request, 0);
      match target.val
      case Err(reason) => Err(Refused(reason))
      case Ok(File(_)) => Ok(RegularFile)
      case Ok(Dir(fd)) =>
        match Verdict(r, Frozen(fs), fd, target.t)
        case Ok(IndexFile) => Ok(PublicIndex)
        case Ok(GeneratedListing) => Ok(PublicDirectory)
        case Err(reason) => Err(Refused(reason))
  }

  method CheckSelector(r: Root, fs: Fs, selector: Bytes) returns (verdict: Result<Public, Refusal>)
    ensures verdict == CheckOne(r, fs, selector)
  {
    var parsed := ParseDiagnostic(selector);
    match parsed {
      case Err(why) => return Err(BadSelector(why));
      case Ok(request) =>
        var target, now := ResolveDiagnostic(r, Frozen(fs), request, 0);
        match target {
          case Err(reason) => return Err(Refused(reason));
          case Ok(File(_)) => return Ok(RegularFile);
          case Ok(Dir(fd)) =>
            var diagnosed := Diagnose(r, Frozen(fs), fd, now);
            match diagnosed {
              case Ok(IndexFile) => return Ok(PublicIndex);
              case Ok(GeneratedListing) => return Ok(PublicDirectory);
              case Err(reason) => return Err(Refused(reason));
            }
        }
    }
  }

  /** What the serving path publishes for a selector, told from its own response. */
  function ServedAs(r: Root, fs: Fs, selector: Bytes): Option<Public>
  {
    match Parse(selector)
    case Err(_) => None
    case Ok(request) =>
      match (ResolveRequest(r, Frozen(fs), request, 0).val, Respond(r, Frozen(fs), selector, 0))
      case (None, _) => None
      case (Some(File(_)), _) => Some(RegularFile)
      case (Some(Dir(_)), FileResponse(_)) => Some(PublicIndex)
      case (Some(Dir(_)), BytesResponse(body)) => if body == NOT_FOUND then None else Some(PublicDirectory)
  }

  /** A file, an index or a listing, rather than the not-found fallback. */
  predicate Served(response: Response)
  {
    response.FileResponse? || response.body != NOT_FOUND
  }

  lemma ServedAsServed(r: Root, fs: Fs, selector: Bytes)
    ensures ServedAs(r, fs, selector).Some? <==> Served(Respond(r, Frozen(fs), selector, 0))
  {
  }

  /** A directory the process may probe but not walk is rejected one step later. */
  lemma ProbedOnlyRejected(r: Root, fs: Fs, dir: Ino, t: nat)
    requires fs(dir).stat.kind == Directory && fs(dir).daemonRead && !TraverseOpens(r.platform, fs(dir))
    ensures Verdict(r, Frozen(fs), dir, t).Err?
  {
  }

  lemma DirectoryVerdictAgrees(r: Root, fs: Fs, dir: Ino, t: nat, u: nat)
    ensures match (Verdict(r, Frozen(fs), dir, t), RespondDir(r, Frozen(fs), dir, u))
            case (Ok(IndexFile), FileResponse(_)) => true
            case (Ok(GeneratedListing), BytesResponse(body)) => body != NOT_FOUND
            case (Err(_), BytesResponse(body)) => body == NOT_FOUND
            case _ => false
  {
    ClassifyIsPublished(r, fs, dir, INDEX, u);
    DiagnosisAgrees(r, fs, dir, t, ClassifyChild(r, Frozen(fs), dir, INDEX, u).t);
  }

  /** `check` accepts a selector as exactly what the server would serve it as. */
  lemma CheckAgrees(r: Root, fs: Fs, selector: Bytes)
    ensures match CheckOne(r, fs, selector)
            case Ok(public) => ServedAs(r, fs, selector) == Some(public)
            case Err(_) => ServedAs(r, fs, selector) == None
  {
    if Parse(selector).Ok? {
      var request := Parse(selector).value;
      var target := DiagnoseRequest(r, Frozen(fs), request, 0);
      ResolveIsPublished(r, fs, request, 0);
      DiagnoseIsPublished(r, fs, request, 0);
      if target.val.Ok? && target.val.value.Dir? {
        var dir := target.val.value.fd;
        if Published(r, fs, request).Some? {
          DirectoryVerdictAgrees(r, fs, dir, target.t, ResolveRequest(r, Frozen(fs), request, 0).t);
        } else {
          ProbedOnlyRejected(r, fs, dir, target.t);
        }
      }
    }
  }

  /** `run` says true exactly when every selector would be served. */
  lemma AllOkMeansAllServed(r: Root, fs: Fs, selectors: seq<Bytes>)
    ensures (forall i :: 0 <= i < |selectors| ==> CheckOne(r, fs, selectors[i]).Ok?) <==>
            (forall i :: 0 <= i < |selectors| ==> Served(Respond(r, Frozen(fs), selectors[i], 0)))
  {
    forall i | 0 <= i < |selectors|
      ensures CheckOne(r, fs, selectors[i]).Ok? <==> Served(Respond(r, Frozen(fs), selectors[i], 0))
    {
      CheckAgrees(r, fs, selectors[i]);
      ServedAsServed(r, fs, selectors[i]);
    }
  }

  /** The reasons, as printed: a selector that does not parse is refused for its
      parse error, a target for the first obstacle on the way to it, a directory
      without an index for what stands in the way of its listing. */
  lemma ReasonsReported(r: Root, fs: Fs, selector: Bytes)
    ensures forall why :: Parse(selector) == Err(why) <==> CheckOne(r, fs, selector) == Err(BadSelector(why))
    ensures Parse(selector).Ok? ==>
              var obstacle := FirstObstacleOfRequest(r, fs, Parse(selector).value);
              obstacle.Some? ==> CheckOne(r, fs, selector) == Err(Refused(obstacle.value))
    ensures Parse(selector).Ok? ==>
              match DiagnoseRequest(r, Frozen(fs), Parse(selector).value, 0).val
              case Err(reason) => FirstObstacleOfRequest(r, fs, Parse(selector).value) == Some(reason)
              case Ok(File(_)) => CheckOne(r, fs, selector) == Ok(RegularFile)
              case Ok(Dir(d)) =>
                CheckOne(r, fs, selector) ==
                if HasIndex(r, fs, d) then Ok(PublicIndex)
                else if ListingObstacle(r, fs, d).Some? then Err(Refused(ListingObstacle(r, fs, d).value))
                else Ok(PublicDirectory)
  {
    if Parse(selector).Ok? {
      var request := Parse(selector).value;
      var target := DiagnoseRequest(r, Frozen(fs), request, 0);
      ReasonIsFirstObstacle(r, fs, request, 0);
      if target.val.Ok? && target.val.value.Dir? {
        VerdictIs(r, fs, target.val.value.fd, target.t);
      }
    }
  }

  /** One verdict a selector, and whether all of them are good. */
  method Run(r: Root, fs: Fs, selectors: seq<Bytes>) returns (allOk: bool, out: seq<Line>)
    ensures |out| == |selectors|
    ensures forall i :: 0 <= i < |selectors| ==>
              out[i] == Line(selectors[i], CheckOne(r, fs, selectors[i]))
    ensures forall i, why :: 0 <= i < |selectors| ==>
              (Parse(selectors[i]) == Err(why) <==> out[i].verdict == Err(BadSelector(why)))
    ensures forall i :: 0 <= i < |selectors| && Parse(selectors[i]).Ok? ==>
              var obstacle := FirstObstacleOfRequest(r, fs, Parse(selectors[i]).value);
              obstacle.Some? ==> out[i].verdict == Err(Refused(obstacle.value))
    ensures forall i :: 0 <= i < |selectors| && Parse(selectors[i]).Ok? ==>
              match DiagnoseRequest(r, Frozen(fs), Parse(selectors[i]).value, 0).val
              case Err(_) => out[i].verdict.Err?
              case Ok(File(_)) => out[i].verdict == Ok(RegularFile)
              case Ok(Dir(d)) =>
                out[i].verdict ==
                if HasIndex(r, fs, d) then Ok(PublicIndex)
                else if ListingObstacle(r, fs, d).Some? then Err(Refused(ListingObstacle(r, fs, d).value))
                else Ok(PublicDirectory)
    ensures allOk <==> forall i :: 0 <= i < |selectors| ==> CheckOne(r, fs, selectors[i]).Ok?
    ensures allOk <==> forall i :: 0 <= i < |selectors| ==> Served(Respond(r, Frozen(fs), selectors[i], 0))
  {
    allOk := true;
    out := [];
    for k := 0 to |selectors|
      invariant |out| == k
      invariant forall i :: 0 <= i < k ==> out[i] == Line(selectors[i], CheckOne(r, fs, selectors[i]))
      invariant allOk <==> forall i :: 0 <= i < k ==> CheckOne(r, fs, selectors[i]).Ok?
    {
      var verdict := CheckSelector(r, fs, selectors[k]);
      if verdict.Err? {
        allOk := false;
      }
      out := out + [Line(selectors[k], verdict)];
    }
    AllOkMeansAllServed(r, fs, selectors);
    forall i | 0 <= i < |selectors| {
      ReasonsReported(r, fs, selectors[i]);
    }
  }
}
