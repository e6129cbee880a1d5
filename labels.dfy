/** Data-series labels (`DataParameters.label`), shared by the graph results, the cache and the driver. */
module Labels {
  type Label = string
}
