/** The message value shared by the connection, ingestion and processing modules. */
module Messages {
  // Topic names and client identifiers are byte strings.
  type Name = seq<int>

  datatype Message = Message(client: Name, topic: Name, payload: seq<int>)
}
