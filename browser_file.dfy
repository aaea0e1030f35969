/** A browser `File` as the tools see it. */
module BrowserFile {

  /** `file.name`, `file.type` (the MIME type) and `file.size` in bytes. */
  datatype File = File(name: string, mime: string, size: nat)
}
