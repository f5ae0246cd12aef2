/**
  The `QRScanner` component as a state machine: the decode callback (`Offer`), the
  completion and status effect (`Refresh`), `clearAll` (`ClearAll`), the subscription's
  `stopped` flag, the camera-failure status and the submit button.
*/
module Scanner {
  import opened Options
  import opened ChunkCodec
  import opened Reassembly
  import ReassemblyProperties

  /** What `onSubmit` receives: the assembled text and the typed file extension. */
  datatype Submission = Submission(text: string, fileExtension: string)

  /** JavaScript truthiness of a nullable string: neither `null` nor `""`. */
  predicate Truthy(s: Option<string>) {
    s.Some? && s.value != ""
  }

  /**
    The chunk the decode callback goes on with: none once its subscription is cancelled,
    none without a decode result, and otherwise whatever the header parser makes of the text.
  */
  function Accepted(stopped: bool, decoded: Option<string>): Option<Chunk> {
    if stopped || decoded.None? then None else Parse(decoded.value)
  }

  class QRScanner {
    var chunks: ChunkMap
    var totalParts: Option<nat>
    var status: string
    var fullText: Option<string>
    var fileExtension: Option<string>
    var stopped: bool
    /** Every chunk the callback has accepted since the last reset, in arrival order. */
    ghost var accepted: seq<Chunk>

    /** The chunk map and the total are the folds of the accepted chunks. */
    ghost predicate Valid()
      reads this
    {
      && chunks == MergeAll(map[], accepted)
      && totalParts == AdoptAll(None, accepted)
    }

    /** The component's initial state. */
    constructor()
      ensures Valid()
      ensures chunks == map[] && totalParts == None && status == ReadyMessage
      ensures fullText == None && fileExtension == None && !stopped && accepted == []
    {
      chunks := map[];
      totalParts := None;
      status := ReadyMessage;
      fullText := None;
      fileExtension := None;
      stopped := false;
      accepted := [];
    }

    /**
      The decode callback. `decoded` is the text of the decoded QR code, or `None` when the
      reader reports no result. A cancelled subscription, a missing result and text
      without a header change nothing; a parsed chunk is merged and may set the total.
    */
    method Offer(decoded: Option<string>)
      requires Valid()
      modifies this
      ensures Valid()
      ensures Accepted(old(stopped), decoded).None? ==>
        chunks == old(chunks) && totalParts == old(totalParts) && accepted == old(accepted)
      ensures Accepted(old(stopped), decoded).Some? ==>
        var c := Accepted(old(stopped), decoded).value;
        && chunks == MergeChunk(old(chunks), c)
        && totalParts == AdoptTotal(old(totalParts), c)
        && accepted == old(accepted) + [c]
      ensures status == old(status) && fullText == old(fullText)
      ensures fileExtension == old(fileExtension) && stopped == old(stopped)
    {
      var parsed := Accepted(stopped, decoded);
      if parsed.Some? {
        Merge(parsed.value);
      }
    }

    /** The callback's handling of a parsed chunk: take its total if none is held, then merge it. */
    method Merge(c: Chunk)
      requires Valid()
      modifies this
      ensures Valid()
      ensures chunks == MergeChunk(old(chunks), c) && totalParts == AdoptTotal(old(totalParts), c)
      ensures accepted == old(accepted) + [c]
      ensures status == old(status) && fullText == old(fullText)
      ensures fileExtension == old(fileExtension) && stopped == old(stopped)
    {
      ghost var m0, t0 := chunks, totalParts;
      if !HasTotal(totalParts) {
        totalParts := Some(c.total);
      }
      assert totalParts == AdoptTotal(t0, c);
      if !Occupied(chunks, c.part) {
        chunks := chunks[c.part := c.content];
      }
      assert chunks == MergeChunk(m0, c);
      ReassemblyProperties.FoldStep(accepted, c);
      accepted := accepted + [c];
    }

    /**
      The effect that runs after the chunk map or the total changes: with a total held
      and as many keys as the total, the parts are assembled and the success message
      shown; with a total held otherwise, the progress message is shown; with no total,
      nothing changes.
    */
    method Refresh()
      modifies this
      ensures chunks == old(chunks) && totalParts == old(totalParts) && accepted == old(accepted)
      ensures fileExtension == old(fileExtension) && stopped == old(stopped)
      ensures IsComplete(chunks, totalParts) ==>
        fullText == Some(Assemble(chunks, totalParts.value)) && status == SuccessMessage
      ensures HasTotal(totalParts) && !IsComplete(chunks, totalParts) ==>
        fullText == old(fullText) && status == ProgressMessage(|chunks|, totalParts.value)
      ensures !HasTotal(totalParts) ==> fullText == old(fullText) && status == old(status)
    {
      if HasTotal(totalParts) && |chunks| == totalParts.value {
        fullText := Some(Assemble(chunks, totalParts.value));
        status := SuccessMessage;
      } else if HasTotal(totalParts) {
        status := ProgressMessage(|chunks|, totalParts.value);
      }
    }

    /**
      `clearAll`: back to the initial chunk map, total, status and text. The typed file
      extension and the subscription are left as they are.
    */
    method ClearAll()
      modifies this
      ensures Valid()
      ensures chunks == map[] && totalParts == None && status == ReadyMessage
      ensures fullText == None && accepted == []
      ensures fileExtension == old(fileExtension) && stopped == old(stopped)
    {
      chunks := map[];
      totalParts := None;
      status := ReadyMessage;
      fullText := None;
      accepted := [];
    }

    /** The effect's cleanup: the subscription's callback ignores every later result. */
    method Cancel()
      modifies this
      ensures stopped
      ensures chunks == old(chunks) && totalParts == old(totalParts) && accepted == old(accepted)
      ensures status == old(status) && fullText == old(fullText)
      ensures fileExtension == old(fileExtension)
    {
      stopped := true;
    }

    /** The effect running again: a new subscription whose callback is live. */
    method Subscribe()
      modifies this
      ensures !stopped
      ensures chunks == old(chunks) && totalParts == old(totalParts) && accepted == old(accepted)
      ensures status == old(status) && fullText == old(fullText)
      ensures fileExtension == old(fileExtension)
    {
      stopped := false;
    }

    /** The camera could not be started: only the status changes. */
    method ReportCameraFailure()
      modifies this
      ensures status == CameraFailureMessage
      ensures chunks == old(chunks) && totalParts == old(totalParts) && accepted == old(accepted)
      ensures fullText == old(fullText) && fileExtension == old(fileExtension)
      ensures stopped == old(stopped)
    {
      status := CameraFailureMessage;
    }

    /** The file-extension input's `onChange`. */
    method SetFileExtension(e: string)
      modifies this
      ensures fileExtension == Some(e)
      ensures chunks == old(chunks) && totalParts == old(totalParts) && accepted == old(accepted)
      ensures status == old(status) && fullText == old(fullText) && stopped == old(stopped)
    {
      fileExtension := Some(e);
    }

    /**
      Clicking the submit button. The button is enabled only with a non-empty file
      extension, and `handleSubmit` passes the text on only when it is non-empty; the
      text and the extension are handed over as they are.
    */
    method Submit() returns (r: Option<Submission>)
      ensures r.Some? <==> Truthy(fullText) && Truthy(fileExtension)
      ensures r.Some? ==> r.value.text == fullText.value
      ensures r.Some? ==> r.value.fileExtension == fileExtension.value
    {
      if Truthy(fileExtension) && Truthy(fullText) {
        r := Some(Submission(fullText.value, fileExtension.value));
      } else {
        r := None;
      }
    }
  }
}
