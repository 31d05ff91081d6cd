/** The layers put together: frames of one session, through the tunnel, to the decoder of the other. */
module EndToEnd {
  import opened Octets
  import opened Frames
  import opened Codec
  import opened CodecLaws
  import opened WsTunnel
  import Ws = WsFrames

  /**
   * Whatever frames one end writes, however their octets are cut into writes, whatever masks and
   * control frames the tunnel adds, however the socket cuts what it carries and however the
   * other end cuts what it reads: its decoder yields exactly those frames, in order, with
   * nothing left over, and every data frame on the way carried exactly one of them.
   */
  lemma {:induction false} FramesThroughTunnel(
    fs: seq<Frame>, acts: seq<Act>, states: seq<Writer>, sockets: seq<Bytes>, pieces: seq<Bytes>, maxFrameSize: U32)
    requires Fit(fs, maxFrameSize) && Runs(FRESH, acts, states)
    requires forall i :: 0 <= i < |acts| ==> InStream(fs, states[i], acts[i])
    requires
      var w := states[|acts|];
      w.taken == EncodeAll(fs) && Carriable(w.outs) && Flatten(sockets) == Wire(w.outs)
    requires Flatten(pieces) == MoreAll(Unframe([]), sockets).data
    ensures FeedAll(Decoded([], Wait(None, [])), maxFrameSize, pieces) == Decoded(fs, Wait(None, []))
    ensures
      var payloads := Payloads(states[|acts|].outs);
      |payloads| == |fs| && forall i :: 0 <= i < |fs| ==> payloads[i] == Encode(fs[i])
  {
    hide Encode, EncodeAll, Fit, FeedAll, Carriable, Wire, Payloads, Unframe, MoreAll, InStream;
    FitValid(fs, maxFrameSize);
    WritesAligned(fs, acts, states, |acts|);
    TunnelTransparent(acts, states, sockets, Ws.Out(Ws.Close, [], None), []);
    WireTransparent(fs, pieces, maxFrameSize);
  }

  lemma {:induction false} FitValid(fs: seq<Frame>, maxFrameSize: U32)
    requires Fit(fs, maxFrameSize)
    ensures AllValid(fs)
  {
  }
}
