/** A file: its bytes, and the position of its reader. */
module File {

  class File {
    var bytes: string
    var pos: nat

    ghost predicate Valid()
      reads this
    {
      pos <= |bytes|
    }

    /** What is still to be read. */
    ghost function Rest(): string
      requires Valid()
      reads this
    {
      bytes[pos..]
    }

    constructor (bytes: string)
      ensures Valid() && this.bytes == bytes && pos == 0
    {
      this.bytes, pos := bytes, 0;
    }

    /** Opened anew for writing, an existing file loses its contents. */
    method Truncate()
      modifies this
      ensures Valid() && bytes == ""
    {
      bytes, pos := "", 0;
    }

    /** `fwrite` at the end of the file. */
    method Write(s: string)
      requires Valid()
      modifies this`bytes
      ensures Valid() && bytes == old(bytes) + s
    {
      bytes := bytes + s;
    }

    /** `fread` of `n` bytes, or of the fewer that are left. */
    method Read(n: nat) returns (s: string)
      requires Valid()
      modifies this`pos
      ensures Valid()
      ensures if n <= |old(Rest())| then s == old(Rest())[..n] && Rest() == old(Rest())[n..]
              else s == old(Rest()) && Rest() == ""
    {
      var k := if n <= |bytes| - pos then n else |bytes| - pos;
      s := bytes[pos..pos + k];
      pos := pos + k;
    }
  }
}
