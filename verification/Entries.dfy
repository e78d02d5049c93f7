/** include/archive_entry.h: one file system object inside an archive. */
module Entries {
  import opened Common

  datatype EntryType =
    RegularFile | Directory | Symlink | HardLink | Fifo | CharDevice | BlockDevice | Socket

  /** mode..size are the C++ unsigned integers; mtimeSec is the int64. `size` is the length of the
      content for a regular file and 0 otherwise. */
  datatype ArchiveEntry = ArchiveEntry(
    path: Bytes, kind: EntryType, mode: nat, uid: nat, gid: nat, mtimeSec: int, mtimeNsec: nat,
    size: nat, linkTarget: Bytes, devMajor: nat, devMinor: nat, userName: Bytes, groupName: Bytes)

  /** An entry in an archive file and where its content starts. */
  datatype Member = Member(entry: ArchiveEntry, dataOffset: nat, dataSize: nat)

  /** An entry and the content of the file it was scanned from; `steady` is the outcome of whatever a
      writer checks again once it has read the object (times, inode, digest, link target, metadata). */
  datatype Source = Source(entry: ArchiveEntry, content: Bytes, steady: bool)

  const SLASH: byte := 47
  const DOT: byte := 46

  /** read(2) on the source file: at least one byte unless it is at its end. */
  method Read(content: Bytes, position: nat, want: nat) returns (got: nat)
    requires position <= |content| && want > 0
    ensures got <= want && position + got <= |content| && (got == 0 <==> position == |content|)
  {
    if position == |content| { return 0; }
    var most := if want < |content| - position then want else |content| - position;
    got :| 1 <= got <= most;
  }
}
