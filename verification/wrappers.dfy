/** Failure-compatible result types and the one error taxonomy shared by
    the directory tree and the block stream. */
module Wrappers {

  /** The conventional Some/None datatype, used in place of a nullable reference. */
  datatype Option<+T> = None | Some(value: T)

  /** Every exception the core raises, as one datatype. */
  datatype Error =
    | EmptyName               // EmptyNodeName: a node name must not be ""
    | NotUnique               // NotUniqueName: same-kind sibling with that name
    | AlreadyDeleted          // VirtualFSNodeIsDeleted
    | Unremovable             // UnremovableVirtualNode: the node has no parent
    | NullVirtualFS           // no container on the whole parent chain
    | Locked                  // LockedVirtualFSNode: a try-lock failed
    | IllegalArgument         // open() with a mode other than "r" / "rw"
    | NoSuchElement           // iterator exhausted
    | ConcurrentModification  // iterator saw the isModifying flag
    | IOError                 // the container file could not be read or written as asked
    | NullPointer             // the source dereferences a missing parent
    | NegativeSize            // NegativeArraySizeException: a length cast to int came out negative

  /** Success or failure; usable with `:-`. */
  datatype Result<+T> = Ok(value: T) | Err(error: Error) {

    predicate IsFailure() {
      Err?
    }

    function PropagateFailure<U>(): Result<U>
      requires Err?
    {
      Err(error)
    }

    function Extract(): T
      requires Ok?
    {
      value
    }
  }
}
