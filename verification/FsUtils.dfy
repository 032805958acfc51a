/** The reference point of a seek (src/kernel/vfs/fs_utils.c) and the room for names in dentries
    (src/kernel/vfs/dentry.h). */
module FsUtils {
  /** 16 bytes with the terminator. */
  const MAX_NAME: nat := 15

  datatype Whence = FromStart | FromEnd | FromHere

  /** get_seek_ref_offset. */
  function Reference(whence: Whence, pos: int, size: nat): int {
    match whence
    case FromStart => 0
    case FromEnd => size
    case FromHere => pos
  }
}
