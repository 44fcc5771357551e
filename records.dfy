/** The values the crawler passes between its stages. */
module Records {

  datatype Option<+T> = None | Some(value: T)

  /** One catalogue entry returned by the player query; the crawler reads only its `id`. */
  datatype Player = Player(id: int)

  /** The `prices` part of one scraped observation: the grade probed and the text read. */
  datatype PriceEntry = PriceEntry(grade: int, price: string)

  /** `{ id, prices: { grade, price } }`, one per (grade, player) pair probed. */
  datatype Observation = Observation(id: int, prices: PriceEntry)

  /** A JSON-like field value held by a stored or incoming pack. */
  datatype Json =
    | Null
    | Bool(b: bool)
    | Num(n: int)
    | Str(s: string)
    | Arr(items: seq<Json>)
    | Obj(members: map<string, Json>)

  /**
   * A season pack: its `packName` (the merge key) and every other field it
   * carries. The JavaScript object's `packName` property is the `packName`
   * component alone; `fields` stands for its remaining properties and so is
   * meant never to hold the key "packName".
   */
  datatype Pack = Pack(packName: string, fields: map<string, Json>)
}
