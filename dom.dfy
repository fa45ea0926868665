/** The part of the browser document the loader reads, supplied as data:
    the node a script element is, the `search` part of its `src` URL as a
    URL parser reports it, and its text content. */
module Dom {

  /** Identity of the document that owns a node. */
  type DocumentId = nat

  datatype Node =
    | ElementNode(ownerDocument: DocumentId, search: string, textContent: string)
    | OtherNode(ownerDocument: DocumentId)
}
