/** The companion program `resources-processes` (src/bin/resources-processes.rs): for every
    request byte on its standard input it writes one frame, the payload's length as a
    little-endian `usize` followed by the payload, which the application's reader
    (`Process.AllData`) takes apart again. */
module Companion {
  import opened Wrappers
  import Process

  type Byte = Process.Byte

  const UsizeBound: nat := 0x1_0000_0000_0000_0000

  /** `usize::to_le_bytes`: `k` bytes, least significant first. */
  function LeBytes(n: nat, k: nat): (b: seq<Byte>)
    ensures |b| == k
  {
    if k == 0 then [] else [n % 256] + LeBytes(n / 256, k - 1)
  }

  function Pow256(k: nat): nat
  {
    if k == 0 then 1 else 256 * Pow256(k - 1)
  }

  /** Reading the bytes back gives the number, when it fits in `k` bytes. */
  lemma {:induction false} LeRoundTrip(n: nat, k: nat)
    requires n < Pow256(k)
    ensures Process.LeValue(LeBytes(n, k)) == n
  {
    if k > 0 {
      LeRoundTrip(n / 256, k - 1);
      assert LeBytes(n, k)[1..] == LeBytes(n / 256, k - 1);
    }
  }

  /** A `usize` is eight bytes wide. */
  lemma UsizeWidth()
    ensures Pow256(Process.UsizeBytes) == UsizeBound
  {
    calc {
      Pow256(8);
      256 * Pow256(7);
      256 * 256 * Pow256(6);
      256 * 256 * 256 * Pow256(5);
      { assert Pow256(5) == 256 * 256 * 256 * 256 * 256; }
      UsizeBound;
    }
  }

  /** One frame as `output` writes it. */
  function FrameBytes(payload: seq<Byte>): (b: seq<Byte>)
    ensures |b| == Process.UsizeBytes + |payload|
  {
    LeBytes(|payload|, Process.UsizeBytes) + payload
  }

  /** The frames of several payloads, one after the other. */
  function Frames(payloads: seq<seq<Byte>>): (b: seq<Byte>)
    ensures |b| >= |payloads| * Process.UsizeBytes
  {
    if |payloads| == 0 then [] else Frames(payloads[..|payloads| - 1]) + FrameBytes(payloads[|payloads| - 1])
  }

  /** The length prefix of a frame is the payload's length, and the reader gets the payload
      back with whatever follows it left in the pipe. */
  lemma FrameRoundTrip(payload: seq<Byte>, rest: seq<Byte>)
    requires |payload| < UsizeBound
    ensures Process.LeValue(FrameBytes(payload)[..Process.UsizeBytes]) == |payload|
    ensures Process.Frame(FrameBytes(payload) + rest) == Ok((payload, rest))
  {
    var n := Process.UsizeBytes;
    UsizeWidth();
    LeRoundTrip(|payload|, n);
    var s := FrameBytes(payload) + rest;
    assert s[..n] == LeBytes(|payload|, n);
    assert FrameBytes(payload)[..n] == LeBytes(|payload|, n);
    assert s[n..] == payload + rest;
    assert (payload + rest)[..|payload|] == payload && (payload + rest)[|payload|..] == rest;
  }

  /** Reading `count` frames one after the other, as successive `all_data` calls do. */
  function ReadFrames(stream: seq<Byte>, count: nat): (r: Result<seq<seq<Byte>>, string>)
    ensures r.Ok? ==> |r.value| == count
    ensures r.Err? ==> r.error == "failed to fill whole buffer"
    decreases count
  {
    if count == 0 then Ok([])
    else match Process.Frame(stream)
      case Err(e) => Err(e)
      case Ok(f) =>
        match ReadFrames(f.1, count - 1)
        case Err(e) => Err(e)
        case Ok(ps) => Ok([f.0] + ps)
  }

  /** Frames read off a pipe that holds `Frames(ps)` and then more. */
  lemma {:induction false} ReadFramesOf(ps: seq<seq<Byte>>, i: nat, rest: seq<Byte>)
    requires forall j :: 0 <= j < |ps| ==> |ps[j]| < UsizeBound
    requires i <= |ps|
    ensures ReadFrames(FramesFrom(ps, i) + rest, |ps| - i) == Ok(ps[i..])
    decreases |ps| - i
  {
    if i < |ps| {
      var tail := FramesFrom(ps, i + 1) + rest;
      assert FramesFrom(ps, i) + rest == FrameBytes(ps[i]) + tail;
      FrameRoundTrip(ps[i], tail);
      ReadFramesOf(ps, i + 1, rest);
      assert ps[i..] == [ps[i]] + ps[i + 1..];
    }
  }

  /** The frames of `ps[i..]`. */
  function FramesFrom(ps: seq<seq<Byte>>, i: nat): seq<Byte>
    requires i <= |ps|
    decreases |ps| - i
  {
    if i == |ps| then [] else FrameBytes(ps[i]) + FramesFrom(ps, i + 1)
  }

  /** Both ways of writing the frames give the same bytes. */
  lemma {:induction false} FramesFromStart(ps: seq<seq<Byte>>)
    ensures Frames(ps) == FramesFrom(ps, 0)
  {
    if |ps| > 0 {
      var init := ps[..|ps| - 1];
      FramesFromStart(init);
      FramesFromSplit(ps, init, 0);
    }
  }

  lemma {:induction false} FramesFromSplit(ps: seq<seq<Byte>>, init: seq<seq<Byte>>, i: nat)
    requires |ps| > 0 && init == ps[..|ps| - 1] && i <= |init|
    ensures FramesFrom(ps, i) == FramesFrom(init, i) + FrameBytes(ps[|ps| - 1])
    decreases |init| - i
  {
    if i < |init| {
      FramesFromSplit(ps, init, i + 1);
      assert init[i] == ps[i];
    }
  }

  /** The application reads back exactly the payloads the companion wrote. */
  lemma ReadBackAll(ps: seq<seq<Byte>>)
    requires forall j :: 0 <= j < |ps| ==> |ps[j]| < UsizeBound
    ensures ReadFrames(Frames(ps), |ps|) == Ok(ps)
  {
    FramesFromStart(ps);
    ReadFramesOf(ps, 0, []);
    assert Frames(ps) + [] == Frames(ps);
  }

  /** `main` with `output`: with `once`, one frame and exit; otherwise one frame per byte
      read from standard input until it ends. `scans` stands for what each call of
      `all_process_data` gathers, already encoded. */
  method Serve(once: bool, stdin: seq<Byte>, scans: seq<seq<Byte>>) returns (stdout: seq<Byte>)
    requires if once then |scans| >= 1 else |scans| >= |stdin|
    requires forall j :: 0 <= j < |scans| ==> |scans[j]| < UsizeBound
    ensures once ==> stdout == FrameBytes(scans[0])
    ensures !once ==> stdout == Frames(scans[..|stdin|])
  {
    stdout := [];
    if once {
      stdout := stdout + LeBytes(|scans[0]|, Process.UsizeBytes);
      stdout := stdout + scans[0];
      return;
    }
    var i := 0;
    while i < |stdin|
      invariant i <= |stdin|
      invariant stdout == Frames(scans[..i])
    {
      var encoded := scans[i];
      stdout := stdout + LeBytes(|encoded|, Process.UsizeBytes);
      stdout := stdout + encoded;
      assert scans[..i + 1][..i] == scans[..i];
      i := i + 1;
    }
  }

  /** In loop mode every request byte gets its own frame, and all of them read back. */
  lemma OneFramePerRequest(stdin: seq<Byte>, scans: seq<seq<Byte>>)
    requires |scans| >= |stdin|
    requires forall j :: 0 <= j < |scans| ==> |scans[j]| < UsizeBound
    ensures ReadFrames(Frames(scans[..|stdin|]), |stdin|) == Ok(scans[..|stdin|])
  {
    ReadBackAll(scans[..|stdin|]);
  }
}
