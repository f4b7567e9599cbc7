/** The records the components receive: the output of the ETA
    normaliser (one group per direction, each with its arrival entries)
    and the entries of the subway next-train feed. The normaliser itself
    is not part of this model; its output is taken as given. */
module TransitData {
  import opened JsValues

  /** One predicted arrival: an absolute time in seconds, the branch it
      runs on (a route number, possibly with a suffix) and the vehicle. */
  datatype EtaEntry = EtaEntry(epochTime: int, branch: string, vehicleId: string)

  /** One direction group produced by the ETA normaliser; `etas` is
      `undefined` for a group that carries no prediction list. */
  datatype EtaGroup = EtaGroup(line: string, direction: string, stopTag: string, etas: Option<seq<EtaEntry>>)

  /** One element of the subway next-train feed: `nextTrains` is a
      comma-separated list of minutes; `hasError` says whether the
      element carries a truthy `Error` field. */
  datatype SubwayPrediction = SubwayPrediction(nextTrains: Option<string>, directionText: Option<string>, hasError: bool)

  /** The arrivals of a group, or none when it has no list. */
  function EtasOf(g: EtaGroup): seq<EtaEntry> {
    g.etas.GetOr([])
  }
}
