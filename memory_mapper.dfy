// The POSIX MemoryMapper: a read-only mapping of a whole file, owned by
// one object at a time. open, fstat and mmap are not modelled; their
// outcomes arrive as a FileOracle. The munmap and close calls the object
// makes are recorded, in order, in its `released` log.

module MemoryMapping {
  import opened ByteCodec
  import opened OrderedMap

  /**
   * What the operating system answers for one map(path) call: the
   * descriptor open returns (-1 on failure), whether fstat succeeds, the
   * file's bytes (their length is st_size), and whether mmap succeeds.
   */
  datatype FileOracle = FileOracle(openFd: int, statOk: bool, contents: Bytes, mmapOk: bool)

  /** A call that gives a resource back to the operating system. */
  datatype Release = Munmap(length: nat) | Close(fd: int)

  /** map() succeeds exactly when every call succeeds and the file is not empty. */
  predicate MapSucceeds(os: FileOracle)
  {
    os.openFd != -1 && os.statOk && |os.contents| > 0 && os.mmapOk
  }

  /** What unmap() gives back: the mapping if there is one, then the descriptor if it is open. */
  function UnmapReleases(mapped: Option<Bytes>, size: nat, fd: int): seq<Release>
  {
    (if mapped.Some? then [Munmap(size)] else []) + (if fd != -1 then [Close(fd)] else [])
  }

  /** What a failed map() closes after its own unmap: the descriptor open returned, if any. */
  function FailureReleases(os: FileOracle): seq<Release>
  {
    if os.openFd != -1 && !MapSucceeds(os) then [Close(os.openFd)] else []
  }

  class MemoryMapper {
    var mapped: Option<Bytes>   // mapped_ptr_: None is nullptr, Some the mapped bytes
    var size: nat               // mapped_size_
    var fd: int                 // fd_
    var released: seq<Release>  // munmap/close calls made so far

    /**
     * Either nothing is held (null pointer, size 0, no descriptor) or a
     * non-empty mapping of size bytes is held together with its open
     * descriptor.
     */
    predicate Valid()
      reads this
    {
      || (mapped.None? && size == 0 && fd == -1)
      || (mapped.Some? && |mapped.value| == size > 0 && fd >= 0)
    }

    constructor()
      ensures Valid() && mapped.None? && released == []
    {
      mapped := None;
      size := 0;
      fd := -1;
      released := [];
    }

    /** The move constructor: default state, then the move assignment from other. */
    constructor Moved(other: MemoryMapper)
      requires other.Valid()
      modifies other
      ensures Valid() && other.Valid()
      ensures mapped == old(other.mapped) && size == old(other.size) && fd == old(other.fd) && released == []
      ensures other.mapped.None? && other.size == 0 && other.fd == -1 && other.released == old(other.released)
    {
      mapped := other.mapped;
      size := other.size;
      fd := other.fd;
      released := [];
      other.fd := -1;
      other.mapped := None;
      other.size := 0;
    }

    /** unmap(): give back the mapping and the descriptor; safe to repeat. */
    method Unmap()
      modifies this
      ensures Valid() && mapped.None?
      ensures released == old(released) + UnmapReleases(old(mapped), old(size), old(fd))
    {
      if mapped.Some? {
        released := released + [Munmap(size)];
        mapped := None;
      }
      size := 0;
      if fd != -1 {
        released := released + [Close(fd)];
        fd := -1;
      }
    }

    /**
     * map(path): release what is held, then open, fstat and mmap. Any
     * failure, and a file of length zero, leaves the mapper empty with the
     * descriptor closed again.
     */
    method Map(os: FileOracle) returns (ok: bool)
      requires os.openFd >= -1
      modifies this
      ensures Valid()
      ensures ok == MapSucceeds(os)
      ensures ok ==> mapped == Some(os.contents) && size == |os.contents| && fd == os.openFd
      ensures !ok ==> mapped.None?
      ensures released == old(released) + UnmapReleases(old(mapped), old(size), old(fd)) + FailureReleases(os)
    {
      Unmap();
      fd := os.openFd;
      if fd == -1 {
        return false;
      }
      if !os.statOk {
        released := released + [Close(fd)];
        fd := -1;
        return false;
      }
      size := |os.contents|;
      if size == 0 {
        released := released + [Close(fd)];
        fd := -1;
        return false;
      }
      if !os.mmapOk {
        mapped := None;
        size := 0;
        released := released + [Close(fd)];
        fd := -1;
        return false;
      }
      mapped := Some(os.contents);
      return true;
    }

    /**
     * Move assignment: unless other is this object, release what this
     * holds, take over other's mapping, size and descriptor, and leave
     * other empty without releasing anything of it.
     */
    method MoveAssign(other: MemoryMapper)
      requires Valid() && other.Valid()
      modifies this, other
      ensures Valid() && other.Valid()
      ensures other == this ==> mapped == old(mapped) && size == old(size) && fd == old(fd) && released == old(released)
      ensures other != this ==> mapped == old(other.mapped) && size == old(other.size) && fd == old(other.fd)
      ensures other != this ==> released == old(released) + UnmapReleases(old(mapped), old(size), old(fd))
      ensures other != this ==> other.mapped.None? && other.size == 0 && other.fd == -1 && other.released == old(other.released)
    {
      if other != this {
        Unmap();
        mapped := other.mapped;
        size := other.size;
        fd := other.fd;
        other.fd := -1;
        other.mapped := None;
        other.size := 0;
      }
    }

    /** data(): the mapped bytes, None for the null pointer. */
    function Data(): Option<Bytes>
      reads this
    {
      mapped
    }

    /** size(): the mapped length, 0 when nothing is mapped. */
    function Size(): (n: nat)
      requires Valid()
      reads this
      ensures n == if Data().Some? then |Data().value| else 0
    {
      size
    }

    /** is_mapped(): exactly when data() is not null. */
    function IsMapped(): (m: bool)
      reads this
      ensures m <==> Data().Some?
    {
      mapped.Some?
    }
  }

  /** unmap() on a mapper that holds nothing gives nothing back: a second unmap() is harmless. */
  method UnmapTwice(os: FileOracle) returns (first: seq<Release>, second: seq<Release>, mapped: bool)
    requires os.openFd >= -1
    ensures MapSucceeds(os) ==> first == [Munmap(|os.contents|), Close(os.openFd)]
    ensures second == first && !mapped
  {
    var m := new MemoryMapper();
    var ok := m.Map(os);
    m.Unmap();
    first := m.released;
    m.Unmap();
    second := m.released;
    mapped := m.IsMapped();
  }

  /** A file of length zero is refused and the descriptor open returned is closed again. */
  method ZeroLengthRejected(fd: nat) returns (ok: bool, log: seq<Release>, size: nat)
    ensures !ok && log == [Close(fd)] && size == 0
  {
    var m := new MemoryMapper();
    ok := m.Map(FileOracle(fd, true, [], true));
    log := m.released;
    size := m.Size();
  }

  /** After a successful map(), size() is the file length and data() holds exactly its bytes. */
  method MapExposesFile(os: FileOracle) returns (data: Option<Bytes>, size: nat)
    requires os.openFd >= -1 && MapSucceeds(os)
    ensures data == Some(os.contents) && size == |os.contents|
  {
    var m := new MemoryMapper();
    var ok := m.Map(os);
    data := m.Data();
    size := m.Size();
  }

  /** Moving a mapping transfers it: the target exposes the bytes, the source is left empty, nothing is released. */
  method MoveTransfers(os: FileOracle) returns (target: Option<Bytes>, sourceMapped: bool, log: seq<Release>)
    requires os.openFd >= -1 && MapSucceeds(os)
    ensures target == Some(os.contents) && !sourceMapped && log == []
  {
    var source := new MemoryMapper();
    var ok := source.Map(os);
    var dest := new MemoryMapper();
    dest.MoveAssign(source);
    target := dest.Data();
    sourceMapped := source.IsMapped();
    log := dest.released + source.released;
  }

  /** A mapper assigned to itself keeps its mapping. */
  method SelfMoveKeeps(os: FileOracle) returns (data: Option<Bytes>)
    requires os.openFd >= -1 && MapSucceeds(os)
    ensures data == Some(os.contents)
  {
    var m := new MemoryMapper();
    var ok := m.Map(os);
    m.MoveAssign(m);
    data := m.Data();
  }

  /** A mapper that already holds a file releases it, mapping then descriptor, when map() is called again. */
  method RemapReleasesOld(first: FileOracle, second: FileOracle) returns (log: seq<Release>)
    requires first.openFd >= -1 && second.openFd >= -1 && MapSucceeds(first)
    ensures |log| >= 2 && log[..2] == [Munmap(|first.contents|), Close(first.openFd)]
  {
    var m := new MemoryMapper();
    var ok := m.Map(first);
    ok := m.Map(second);
    log := m.released;
  }
}
