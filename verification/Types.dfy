// Data types and byte orders of datasets, and builds.
module Types {
  datatype Order = BE | LE | Unknown

  // The size is in bytes.
  datatype Datatype = UInt(size: nat) | Int(size: nat) | Float(size: nat) | Custom(size: nat)

  // A build with overflow checks, such as a debug build, and one where u64 arithmetic wraps around,
  // such as a release build.
  datatype Build = Checked | Unchecked
}
