/** The store's error kinds; their message texts are dropped. */
module Errors {
  datatype StoreError = Io | InvalidPath | Exists | Quota | JournalInvalid | ArchiveInvalid | ManifestInvalid
}
