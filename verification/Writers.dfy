/** An io.Writer that never fails: what has been written to it. */
module Writers {
  import opened Bytes

  class Writer {
    var output: seq<Byte>

    constructor ()
      ensures output == []
    {
      output := [];
    }

    method Write(p: seq<Byte>)
      modifies `output
      ensures output == old(output) + p
    {
      output := output + p;
    }
  }
}
