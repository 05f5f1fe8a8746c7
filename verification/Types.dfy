/** The vendor-neutral event and the small vocabulary shared by every component. */
module Types {

  datatype Option<+T> = None | Some(value: T)

  /** adapter.Event. `timestamp` is None for Go's zero time; `properties` stands for
      the arbitrary payload, which nothing modelled here looks into. */
  datatype Event = Event(
    id: string,
    customerId: string,
    eventName: string,
    timestamp: Option<int>,
    properties: map<string, string>,
    route: seq<string>)

  /** adapter.Disposition. It is an `int` in the source, so an adapter can return a
      value outside the three named ones; every switch treats that as Retry. */
  datatype Disposition = Ok | Retry | DeadLetter | Unnamed(code: int)

  /** The providers named in a list, as the map-used-as-set the WAL keeps. */
  function Members(providers: seq<string>): set<string> {
    set p | p in providers
  }
}
