/** How an atomic replace of one durable record can end. */
module Storage {
  /** The write goes to a temporary file that is renamed into place, and then the directory is
      synced; the sync may fail with the new record already in place. */
  datatype Save = Saved | FailedAfterRename | FailedBefore {
    predicate Reached() {
      this != FailedBefore
    }
  }
}
