/** What the orchestrator's catalog hands to a sensor and what a sensor offers back. */
module Catalog {
  import opened Wrappers

  /** A catalogued dataset entry; every field may be missing (None). */
  datatype Dataset = Dataset(instancePrefix: Option<string>, instanceTs: Option<string>, precision: Option<string>)

  /** A dataset specification offered for loading (`instance_prefix`, `instance_ts`,
      `instance_ts_precision`, `locking_seconds` and the optional `alt_uri`). */
  datatype DatasetSpec = DatasetSpec(
    instancePrefix: Option<string>,
    instanceTs: Option<string>,
    precision: string,
    lockingSeconds: int,
    altUri: Option<string>)

  /** One `(load_info, datasetspec)` pair yielded by `get_new_datasetspecs`. */
  datatype Offer<L> = Offer(loadInfo: L, spec: DatasetSpec)
}
