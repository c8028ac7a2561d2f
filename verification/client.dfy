/** The boundary to the Proxmox REST client.

    The client itself (its transport, authentication and the JSON decoder it
    feeds) is not modelled: each operation receives it as a function from the
    request to a `Reply`. A `Reply` is what the call and the decoding step
    together produce: a transport failure, a body that would not decode into
    the expected shape, or the decoded value.
 */
module Client {
  import opened Json

  /** The three API resources the helpers touch, one constructor per path
      template; the textual formatting of the path is not modelled. */
  datatype Path =
    | NodeStorages(node: string)                     // /nodes/{node}/storage
    | StorageContent(node: string, storage: string)  // /nodes/{node}/storage/{storage}/content
    | StorageDownload(node: string, storage: string) // /nodes/{node}/storage/{storage}/download

  datatype Reply<+T> =
    | TransportFailed(cause: string)
    | Undecodable(cause: string)
    | Decoded(value: T)

  /** Which response body failed to decode; it selects the context wording of
      the wrapped error. */
  datatype Payload = StorageList | StorageContentList | DownloadResponse

  datatype Error =
      /** The client call failed; its error is handed on unchanged. */
    | Transport(cause: string)
      /** The body did not decode; the decoder's error is kept as the cause. */
    | Malformed(payload: Payload, cause: string)
      /** No storage on the node advertises ISO content. */
    | NoIsoStorage(node: string)
      /** The download reply carried no task identifier; the whole decoded
          wrapper is reported. */
    | UnexpectedDownloadResponse(wrapper: Record)

  datatype Result<+T> = Ok(value: T) | Err(error: Error)
}
