/** The board post record exchanged with the `/boards` endpoints. */
module Dto {

  /** One post. `id` is assigned by the server and unique; timestamps are
      kept as the strings the server sends. */
  datatype Board = Board(id: int, title: string, content: string, created: string, updated: string)

  /** The "no data yet" / "data loaded" distinction that the client draws
      with a falsy check on the fetched value. */
  datatype Option<+T> = None | Some(value: T)
}
