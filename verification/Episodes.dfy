/** The lifecycle states of an episode (src/model/types.ts). */
module Episodes {
  /** `Legacy` is a record written before the status was stored. */
  datatype Status = Pending | Processed | Failed | Forgotten | Legacy

  /** Legacy records were processed by the pipeline of their time. */
  predicate IsProcessed(s: Status) {
    s == Processed || s == Legacy
  }
}
