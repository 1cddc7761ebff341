/** Calls of `put` in progress, whatever phases a protocol takes them apart into. */
module Putters {
  import opened Directory

  datatype Putter<Phase> = Putter(key: string, compiled: Bytes, phase: Phase)

  function Moved<Phase>(putters: map<nat, Putter<Phase>>, p: nat, phase: Phase): map<nat, Putter<Phase>>
    requires p in putters
  {
    putters[p := putters[p].(phase := phase)]
  }
}
