/** Kernel parameters and the option type shared by the models. */
module Params {

  const NPROC: nat := 64             // maximum number of processes
  const MAXOPBLOCKS: nat := 10       // blocks one file system operation may log
  const LOGSIZE: nat := MAXOPBLOCKS * 3
  const NBUF: nat := MAXOPBLOCKS * 3

  datatype Option<+T> = None | Some(value: T)
}
