/** Files the core reads: the public key file and the service identity file. */
module Files {

  /** The outcome of reading a whole file as text (`IOException` on failure). */
  datatype FileContent = Contents(text: string) | Unreadable
}
