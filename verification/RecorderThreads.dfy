/** The threads' code over shared mutable state: every method is one atomic
    step of one thread, and moves the recorder exactly as the step system of
    module Pipeline says. */
module RecorderThreads {
  import opened Base
  import opened Recorder
  import opened Pipeline

  class RecorderCore {
    const capacity: nat
    const uploading: bool
    const writer: WriterState
    var ring: seq<Sample>
    var dropped: nat
    var stop: bool
    var channel: seq<Report>
    var pc: Pc
    var stopping: bool
    var snapshotsDropped: nat
    var posted: nat
    var failed: nat
    var uploaderDone: bool
    /** The step system's state, history included. */
    ghost var model: State

    ghost predicate Agrees()
      reads this, writer
    {
      && capacity == model.capacity && uploading == model.uploading
      && ring == model.ring && dropped == model.dropped && stop == model.stop && channel == model.channel
      && pc == model.pc && stopping == model.stopping
      && writer.written == model.written && writer.droppedAtLastSnapshot == model.lastDropped
      && writer.snapshotsBuilt == |model.reports|
      && snapshotsDropped == model.snapshotsDropped
      && posted == model.posted && failed == model.failed && uploaderDone == model.uploaderDone
    }

    ghost predicate Valid()
      reads this, writer, writer.Repr()
    {
      && this !in writer.Repr()
      && writer.Valid()
      && Agrees()
      && Reachable(model)
    }

    constructor (queueCapacity: nat, statsWindow: nat, loggingUrl: bool, existing: seq<Row>)
      ensures Valid() && fresh(writer.Repr())
      ensures model == Init(queueCapacity, loggingUrl)
      ensures writer.csv == existing
    {
      capacity, uploading := Max(queueCapacity, 1), loggingUrl;
      writer := new WriterState(statsWindow, existing);
      ring, dropped, stop, channel := [], 0, false, [];
      pc, stopping, snapshotsDropped := Drain, false, 0;
      posted, failed, uploaderDone := 0, 0, false;
      model := Init(queueCapacity, loggingUrl);
      ReachInit(queueCapacity, loggingUrl);
    }

    /** `SampleSender::try_record` */
    method TryRecord(x: Sample) returns (ok: bool)
      requires Valid()
      modifies this
      ensures Valid() && model == PushStep(old(model), x)
      ensures ok <==> |old(ring)| < capacity
      ensures ok <==> model.accepted == old(model.accepted) + [x]
      ensures !ok <==> dropped == old(dropped) + 1
    {
      ReachPush(model, x);
      model := PushStep(model, x);
      if |ring| < capacity {
        ring := ring + [x];
        ok := true;
      } else {
        dropped := dropped + 1;
        ok := false;
      }
    }

    /** The first line of `RecorderHandle::shutdown`. */
    method RequestStop()
      requires Valid()
      modifies this`stop, this`model
      ensures Valid() && model == old(model).(stop := true)
    {
      ReachStop(model);
      model := model.(stop := true);
      stop := true;
    }

    /** The writer's drain loop: one pop and the row it writes. */
    method PopOne()
      requires Valid() && pc.Drain?
      modifies this`ring, this`pc, this`model, writer.Repr()
      ensures Valid() && model == WriterStep(old(model), false)
      ensures writer.csv == old(writer.csv) + (if old(ring) == [] then [] else [RowOf(old(ring)[0])])
    {
      ReachWriter(model, false);
      model := WriterStep(model, false);
      if ring != [] {
        writer.WriteSample(ring[0]);
        ring := ring[1..];
      } else {
        pc := LoadStop;
      }
    }

    /** The stop flag is read once a round, before the snapshot decision. */
    method ReadStopAndDecide(due: bool)
      requires Valid() && (pc.LoadStop? || pc.Decide?)
      modifies this`stopping, this`pc, this`model
      ensures Valid() && model == WriterStep(old(model), due)
    {
      ReachWriter(model, due);
      model := WriterStep(model, due);
      if pc.LoadStop? {
        stopping := stop;
        pc := Decide;
      } else if due || (stopping && writer.rowsWritten > 0) {
        pc := Emit;
      } else {
        pc := Check;
      }
    }

    /** `emit_snapshot` up to the body. */
    method BuildSnapshot()
      requires Valid() && pc.Emit?
      modifies this`pc, this`model, writer`snapshotsBuilt, writer`droppedAtLastSnapshot
      ensures Valid() && model == WriterStep(old(model), false)
    {
      ReachableInv(model);
      ReachWriter(model, false);
      model := WriterStep(model, false);
      var r := writer.TakeReport(dropped);
      pc := if uploading then Send(r) else Check;
    }

    /** `try_send`: a full channel drops the body and counts. */
    method SendSnapshot()
      requires Valid() && pc.Send?
      modifies this`pc, this`channel, this`snapshotsDropped, this`model
      ensures Valid() && model == WriterStep(old(model), false)
    {
      ReachWriter(model, false);
      model := WriterStep(model, false);
      if |channel| < CHANNEL_CAPACITY {
        channel := channel + [pc.body];
      } else {
        snapshotsDropped := snapshotsDropped + 1;
      }
      pc := Check;
    }

    /** The end of a round: leave only when stopping with an empty ring. */
    method EndRound() returns (done: bool)
      requires Valid() && pc.Check?
      modifies this`pc, this`model
      ensures Valid() && model == WriterStep(old(model), false)
      ensures done <==> pc.Done?
    {
      ReachWriter(model, false);
      model := WriterStep(model, false);
      done := stopping && ring == [];
      pc := if done then Done else Drain;
    }

    /** One turn of `upload_loop`. */
    method UploadOne(ok: bool)
      requires Valid()
      modifies this`channel, this`model, this`posted, this`failed, this`uploaderDone
      ensures Valid() && model == UploadStep(old(model), ok)
      ensures posted == old(posted) + (if old(channel) != [] && ok then 1 else 0)
      ensures failed == old(failed) + (if old(channel) != [] && !ok then 1 else 0)
    {
      if channel != [] {
        PostOne(ok);
      } else {
        ReachUpload(model, ok);
        model := UploadStep(model, ok);
        if uploading && pc.Done? {
          uploaderDone := true;
        }
      }
    }

    /** The next body is taken, and posted or not. */
    method PostOne(ok: bool)
      requires Valid() && channel != []
      modifies this`channel, this`model, this`posted, this`failed
      ensures Valid() && model == UploadStep(old(model), ok)
      ensures if ok then posted == old(posted) + 1 && failed == old(failed)
              else posted == old(posted) && failed == old(failed) + 1
    {
      ReachUpload(model, ok);
      model := UploadStep(model, ok);
      channel := channel[1..];
      if ok {
        posted := posted + 1;
      } else {
        failed := failed + 1;
      }
    }

    /** The counts `shutdown` returns once both threads are joined. */
    method Accounts() returns (r: RecorderReport)
      requires Valid() && Joined(model)
      ensures r == FinalReport(model)
    {
      r := RecorderReport(writer.rowsWritten, dropped, writer.snapshotsBuilt, posted, snapshotsDropped, failed);
    }
  }
}
