/** Results, options and the error values of the ext4 layer. */
module Results {
  import opened Bytes

  datatype Option<+T> = None | Some(value: T)

  datatype Result<+T> = Ok(value: T) | Err(error: Error) {
    predicate IsFailure() { Err? }

    /** Total, so that `:-` may also be used where failure is ruled out. */
    function PropagateFailure<U>(): Result<U> {
      match this
      case Err(e) => Err(e)
      case Ok(_) => Err(Io)
    }

    function Extract(): T
      requires Ok?
    {
      value
    }
  }

  datatype Unit = Unit

  /** The error conditions callers can tell apart. I/O is a read past the image. */
  datatype Error =
    | Io
    | SuperblockDecode
    | SuperblockEncode
    | GroupDescriptorDecode
    | GroupDescriptorEncode
    | InodeDecode
    | InodeEncode
    | ExtentDecode
    | ExtentEncode
    | DirEntryDecode(decodeFault: RecordFault)
    | DirEntryEncode(encodeFault: RecordFault)
    | NotFound(name: seq<byte>)
    | AlreadyExists(existing: seq<byte>)
    | NotADirectory(inode: nat)
    | IsADirectory(inode: nat)
    | NotARegularFile(inode: nat)
    | DirectoryNotEmpty(inode: nat)
    | NoSpace(what: Resource)
    | UnsupportedV0
    | NotExtentBased
    | MaxExtentDepthExceeded
    | InodeOutOfRange(inode: nat)
    | InvalidLayout
    | SymlinkTargetTooLong(len: nat)

  /** What is wrong with a directory record. */
  datatype RecordFault =
    | BufferTooSmall
    | RecLenBelowHeaderSize
    | RecLenNotAligned
    | NameTooLong
    | NameLenExceedsRecLen
    | TrailingBytesBelowHeaderSize

  datatype Resource = Inodes | Blocks
}
