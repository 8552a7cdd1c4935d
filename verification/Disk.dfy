/** The two files every durable component uses, and the write-then-rename that all of
    their persistLocked methods end in. */
module Disk {

  /** What reading a file and decoding its bytes gives. Encoding a document and
      decoding it again gives the document back. */
  datatype Content<+D> = Missing | Blank | Malformed | Holds(doc: D)

  /** Where the environment makes one persistLocked call fail. A failed write may leave
      anything in the temporary file. */
  datatype Fault<+D> = NoFault | MkdirFails | EncodeFails | WriteFails(left: Content<D>) | RenameFails

  datatype Cells<+D> = Cells(file: Content<D>, tmp: Content<D>)

  function AfterPersist<D>(before: Cells<D>, doc: D, fault: Fault<D>): Cells<D> {
    match fault
    case NoFault => Cells(Holds(doc), Missing)
    case MkdirFails => before
    case EncodeFails => before
    case WriteFails(left) => before.(tmp := left)
    case RenameFails => before.(tmp := Holds(doc))
  }

  /** The states a crash inside persistLocked can leave: any prefix of its steps, with
      the write itself cut anywhere. */
  ghost predicate CrashLeaves<D(!new)>(before: Cells<D>, doc: D, after: Cells<D>) {
    exists fault: Fault<D> :: after == AfterPersist(before, doc, fault)
  }

  lemma CrashKeepsOldOrNew<D(!new)>(before: Cells<D>, doc: D, after: Cells<D>)
    ensures CrashLeaves(before, doc, after) ==> after.file == before.file || after.file == Holds(doc)
    ensures CrashLeaves(before, doc, before)
    ensures CrashLeaves(before, doc, Cells(Holds(doc), Missing))
  {
    var done: Fault<D>, never: Fault<D> := NoFault, MkdirFails;
    assert AfterPersist(before, doc, done) == Cells(Holds(doc), Missing);
    assert AfterPersist(before, doc, never) == before;
  }

  class Volume<D(!new)> {
    var file: Content<D>
    var tmp: Content<D>

    constructor (file: Content<D>, tmp: Content<D>)
      ensures this.file == file && this.tmp == tmp
    {
      this.file, this.tmp := file, tmp;
    }

    ghost function State(): Cells<D>
      reads this
    {
      Cells(file, tmp)
    }

    /** MkdirAll, MarshalIndent, WriteFile to path.tmp, Rename onto path. */
    method Persist(doc: D, fault: Fault<D>) returns (ok: bool)
      modifies this
      ensures ok == fault.NoFault?
      ensures State() == AfterPersist(old(State()), doc, fault)
      ensures file == if ok then Holds(doc) else old(file)
      ensures ok ==> tmp == Missing
      ensures fault.RenameFails? ==> tmp == Holds(doc)
      ensures fault.MkdirFails? || fault.EncodeFails? ==> tmp == old(tmp)
    {
      if fault.MkdirFails? || fault.EncodeFails? {
        return false;
      }
      if fault.WriteFails? {
        tmp := fault.left;
        return false;
      }
      tmp := Holds(doc);
      if fault.RenameFails? {
        return false;
      }
      file, tmp := tmp, Missing;
      return true;
    }
  }
}
