/** The parameters of an SBC frame, when they are valid, and the size they give. */
module SbcFrames {

  datatype Mode = Mono | DualChannel | Stereo | JointStereo

  datatype Method = Loudness | Snr

  datatype Frame = Frame(isMsbc: bool, frequency: nat, mode: Mode, method_: Method, blocks: nat, subbands: nat,
                         bitpool: nat) {
    predicate TwoChannels() { mode != Mono }

    predicate StereoMode() { mode == Stereo || mode == JointStereo }

    function Channels(): nat { if TwoChannels() then 2 else 1 }

    /** The channels one allocation is made for. */
    function AllocatedChannels(): nat { if StereoMode() then 2 else 1 }

    function MaxBits(): int {
      16 * subbands * blocks * Channels() - 32 - 4 * subbands * Channels() - (if mode == JointStereo then subbands else 0)
    }

    predicate IsValid() {
      4 <= blocks <= 16 && (isMsbc || blocks % 4 == 0) && (subbands == 4 || subbands == 8) &&
      bitpool <= MaxBits() / (blocks * (if mode == DualChannel then 2 else 1)) &&
      bitpool <= 16 * (if StereoMode() then 2 else 1) * subbands
    }

    /** The bits after the header. */
    function DataBits(): nat {
      4 * subbands * Channels() + blocks * bitpool * (if mode == DualChannel then 2 else 1) +
      (if mode == JointStereo then subbands else 0)
    }

    function FrameSize(): nat {
      if IsValid() then 4 + (DataBits() + 7) / 8 else 0
    }

    static function Msbc(): Frame {
      Frame(true, 0, Mono, Loudness, 15, 8, 26)
    }
  }

  const OFFSETS_4: seq<seq<int>> := [[-1, 0, 0, 0], [-2, 0, 0, 1], [-2, 0, 0, 1], [-2, 0, 0, 1]]

  const OFFSETS_8: seq<seq<int>> :=
    [[-2, 0, 0, 0, 0, 0, 0, 1], [-3, 0, 0, 0, 0, 0, 1, 2], [-4, 0, 0, 0, 0, 0, 1, 2], [-4, 0, 0, 0, 0, 0, 1, 2]]

  function LoudnessOffset(frame: Frame, sb: nat): (o: int)
    requires frame.frequency < 4 && sb < frame.subbands && (frame.subbands == 4 || frame.subbands == 8)
    ensures -4 <= o <= 2
  {
    if frame.subbands == 4 then
      assert forall f, k | 0 <= f < 4 && 0 <= k < 4 :: -4 <= OFFSETS_4[f][k] <= 2;
      OFFSETS_4[frame.frequency][sb]
    else
      assert forall f, k | 0 <= f < 4 && 0 <= k < 8 :: -4 <= OFFSETS_8[f][k] <= 2;
      OFFSETS_8[frame.frequency][sb]
  }
}
