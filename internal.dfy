/** The canonical cluster record shared by the emitters, and the error
    values the pipeline produces. */
module Internal {

  /** One resolved cluster: the directory's own name, the user's alias
      (empty when none was given), the broker endpoints and the Kafka
      version tag. */
  datatype Cluster = Cluster(
    Name: string,
    Alias: string,
    Brokers: seq<string>,
    Version: string)

  /** Go `error` values as the core builds them. `Wrapped(p, e)` is
      `fmt.Errorf("<p>: %w", e)`; `Cause` is an error handed over by a
      collaborator (the cloud SDK or an encoder) whose text is opaque. */
  datatype Error =
    | Cause(message: string)
    | Wrapped(prefix: string, inner: Error)
    | InvalidPair(value: string)

  /** The text the process prints for an error. */
  function Message(e: Error): string
  {
    match e
    case Cause(m) => m
    case Wrapped(p, inner) => p + ": " + Message(inner)
    case InvalidPair(v) => "invalid pair: " + v
  }

  /** The name the kaf and kafkactl emitters show: the alias when it is
      non-empty, else the raw name. */
  function DisplayName(c: Cluster): string
  {
    if c.Alias != "" then c.Alias else c.Name
  }
}
