/** Results that carry either a value or the reason there is none, and optional values. */
module Outcome {
  datatype Result<+T> = Ok(value: T) | Error(reason: string)

  datatype Option<+T> = None | Some(value: T)
}

/** The twelve joints of the biped, and one real for each. */
module Poses {
  const NUM_JOINTS: nat := 12

  type Pose = p: seq<real> | |p| == NUM_JOINTS witness seq(NUM_JOINTS, _ => 0.0)
}

/** Octets, shared by the hash, the serial protocol and the protobuf reader. */
module Bytes {
  type Byte = x: int | 0 <= x < 256
}
