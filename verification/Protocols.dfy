/** The four protocols over which a volume can be presented. */
module Protocols {
  datatype Protocol = NFS | SMB | ISCSI | NVMeOF {
    /** The other two present a file share. */
    predicate IsBlock() { ISCSI? || NVMeOF? }
  }
}
