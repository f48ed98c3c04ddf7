# mskrc in Dafny

mskrc lists the managed Kafka (MSK) clusters an AWS account can see. It
resolves each one into a cluster record, applies the user's `--alias
cluster:alias` table and `--cluster name` inclusion list, and writes a
configuration file for one of three Kafka clients: kaf (YAML list of
clusters), kcl (one TOML document per cluster, headed by a `# name:`
comment) and kafkactl (YAML map of contexts). The repository has two
programs. `cmd/mskrc` is the layered one, with all three emitters, aliases
kept apart from names, and the `--cluster` filter. The older `main.go`
emits kaf only and lets an alias replace the cluster name.

This project models the pure pipeline between the AWS calls and the text
encoders, and proves its properties.

Modules, one per source file or component:

- `Wrappers`: `Result`, `Outcome`, `Option`.
- `Strings`: `strings.Split` and `strings.Join` on a one-character
  separator, and the first-index search behind `strings.SplitN(v, ":", 2)`.
  Join undoes Split, and Split undoes Join of one or more separator-free pieces.
- `Internal`: the `Cluster` record of internal/config.go; the Go error
  values (`Wrapped(p, e)` is `fmt.Errorf("p: %w", e)`) and their message
  text; the display name (alias if non-empty, else name).
- `Aws`: the directory's answers as input values. Each `ClusterInfo`
  carries the answer of its own bootstrap-broker lookup, which may be an
  error. `ResolveAll` is the shared loop of both `getClusters`: one record
  per cluster in listing order, or the first lookup error.
- `Flags`: `pairFlag` and `sliceFlag` as classes whose `Set` methods
  update the map or list in place. Both programs define `pairFlag.Set`
  with the same code, so it is modelled once.
- `Mskrc`: `slicesFilter`, the subcommands' `--cluster` step and
  `getClusters` of cmd/mskrc/main.go.
- `Legacy`: `getClusters` and `newKafConfig` of main.go, and how its
  resolution relates to the layered one.
- `KafConfig`, `KafkactlConfig`, `KclConfig`: the three emitters' `New`
  and `Marshal`. The YAML/TOML encoders are `encode` function parameters
  that may fail.
- `Scenarios`: end-to-end scenarios proved on fixed directory answers.

Three behaviours of the code that a reader might not expect:

- An empty alias entry is treated differently by the two programs. The
  layered kaf and kafkactl emitters fall back to the raw name, and the kcl
  preamble shows an alias only when it is non-empty. The old program names
  the cluster "" (`Legacy.EmptyAliasDiverges`).
- Filtering happens in each subcommand after `getClusters`, on the raw
  `Name`.
- The kcl subcommand prints each document as soon as it is marshalled
  (cmd/mskrc/main.go:111-121). So a later marshal error leaves the earlier
  documents on standard output. The printing loop is not part of this
  model.

## Model

| member | source | states |
|---|---|---|
| `Strings.IndexOf` | cmd/mskrc/main.go:243 | finds the first occurrence of the separator: None exactly when it is absent, otherwise an index holding it with no earlier occurrence |
| `Strings.SplitPieces` | cmd/mskrc/main.go:204 | splitting on `,` gives at least one piece, and no piece contains a comma |
| `Strings.JoinSplit` | cmd/mskrc/main.go:204 | joining the broker pieces with `,` gives back the bootstrap string |
| `Strings.SplitJoin` | cmd/mskrc/main.go:220-222 | splitting the comma join of a non-empty list of comma-free values gives back the values |
| `Flags.SplitPairSpec` | cmd/mskrc/main.go:243-246 | a flag value splits exactly when it contains `:`; the key has no colon, and key + ":" + alias is the original value |
| `Flags.SplitPairFirstColon` | cmd/mskrc/main.go:243-248 | the split is at the first colon only; every later colon stays in the alias |
| `Flags.SplitPairExample` | main.go:160-166 | `a:b:c` maps key `a` to alias `b:c` |
| `Flags.PairFlag.constructor` | cmd/mskrc/main.go:212-216 | the alias table starts empty |
| `Flags.PairFlag.Set` | cmd/mskrc/main.go:242-251 | a value without `:` gives an `invalid pair` error and leaves the table unchanged; otherwise the key is bound to the alias (a later Set of the same key replaces the earlier alias), no other key changes, and the result is nil |
| `Flags.SliceFlag.constructor` | cmd/mskrc/main.go:47 | the `--cluster` list starts empty and duplicate-free |
| `Flags.SliceFlag.Set` | cmd/mskrc/main.go:224-230 | appends the value only when it is absent, keeps the list duplicate-free and its earlier contents as a prefix, and never fails |
| `Flags.StringRoundTrip` | cmd/mskrc/main.go:220-222 | `sliceFlag.String` is the comma join of the values; for a non-empty list of comma-free values, splitting it on `,` gives the list back |
| `Flags.CollectSpec` | cmd/mskrc/main.go:224-230 | the list built by successive Sets holds every given value exactly once, ordered by first occurrence |
| `Mskrc.Filter` | cmd/mskrc/main.go:253-261 | the filtered list is no longer than the input, and all its elements satisfy the predicate |
| `Mskrc.FilterMembership` | cmd/mskrc/main.go:253-261 | an element is kept exactly when it is in the input and satisfies the predicate |
| `Mskrc.FilterAppend` | cmd/mskrc/main.go:253-261 | filtering distributes over concatenation, so kept elements keep their input order |
| `Mskrc.FilterKeepsAll` | cmd/mskrc/main.go:255-258 | when every element satisfies the predicate, the whole input is kept |
| `Mskrc.SlicesFilter` | cmd/mskrc/main.go:253-261 | the append loop returns exactly `Filter` of its input |
| `Mskrc.SelectClusters` | cmd/mskrc/main.go:68-72 | the subcommand filter step returns the `Selected` clusters: every cluster when `--cluster` is empty, otherwise those whose raw name is listed |
| `Mskrc.SelectedSpec` | cmd/mskrc/main.go:104-108 | with no `--cluster` values the list is unchanged; otherwise a cluster survives exactly when it was resolved and its raw `Name` (never the alias) is listed |
| `Mskrc.SelectedAppend` | cmd/mskrc/main.go:143-147 | selection commutes with concatenation and never reorders clusters |
| `Mskrc.GetClusters` | cmd/mskrc/main.go:179-210 | a failed listing gives the `unable to list clusters` error; otherwise the result is `Resolve` of the listing |
| `Mskrc.ResolveSuccess` | cmd/mskrc/main.go:190-206 | resolution succeeds exactly when every lookup succeeded; it then gives one record per listed cluster in listing order, with the raw name, `aliases[name]` or "" when there is no entry, the split broker string and the version |
| `Mskrc.ResolveFirstError` | cmd/mskrc/main.go:194-196 | a failed lookup yields no cluster list and the error of the first cluster whose lookup failed |
| `Mskrc.ResolvedBrokers` | cmd/mskrc/main.go:204 | each resolved broker list is non-empty and comma-free, and joined with `,` it is the bootstrap string |
| `Aws.FailureSticks` | cmd/mskrc/main.go:194-196 | once a lookup fails, nothing after it changes the result |
| `Aws.ResolveAllSuccess` | cmd/mskrc/main.go:190-207 | the shared loop succeeds exactly when every lookup succeeded, and then yields one record per cluster, in listing order, built from that cluster |
| `Aws.ResolveAllFirstError` | main.go:104-106 | the shared loop reports the error of the first failed lookup |
| `Aws.LookupErrorNamesArn` | cmd/mskrc/main.go:195 | the corrected lookup error's message is `arn: <ARN>: <SDK message>` |
| `Aws.AsWrittenLosesArn` | main.go:105 | the lookup error as written prints a pointer address, so its message differs from the one that names the ARN |
| `Legacy.GetClusters` | main.go:89-121 | a failed listing gives the `unable to list clusters` error; otherwise the result is the old program's `Resolve` of the listing |
| `Legacy.ResolveSuccess` | main.go:108-117 | success exactly when every lookup succeeded; then one record per cluster, in order, named by its alias entry when there is one (even an empty alias) and by its raw name otherwise, with the split brokers and the version |
| `Legacy.ResolveFirstError` | main.go:100-106 | a single failed lookup aborts with the first failing cluster's error and no partial list |
| `Legacy.NewKafConfig` | main.go:129-142 | one kaf cluster per record, in the same order, with the record's name, brokers and version |
| `Legacy.AgreesWithLayered` | main.go:108-111 | the two programs succeed or fail together with the same error, have equal brokers and versions, and agree on the shown name whenever no alias is empty |
| `Legacy.EmptyAliasDiverges` | main.go:109-111 | with an empty alias entry the old program names the cluster "", while the layered kaf emitter shows the raw name |
| `KafConfig.New` | internal/kafconfig/config.go:32-49 | one kaf cluster per input cluster, in input order, with no deduplication; the name is the alias when it is non-empty, else the cluster name; brokers and version are copied; an empty input gives an empty list |
| `KafConfig.Marshal` | internal/kafconfig/config.go:22-30 | succeeds exactly when the encoder does, returning its bytes; on failure it returns no bytes and the encoder's error wrapped as `yaml encode: ...` |
| `KafkactlConfig.ContextsKeys` | internal/kafkactlconfig/config.go:38-45 | the context map's keys are exactly the display names of the input clusters |
| `KafkactlConfig.ContextsLastWins` | internal/kafkactlconfig/config.go:44 | the context under a display name holds the brokers of the last cluster with that display name |
| `KafkactlConfig.ContextsSize` | internal/kafkactlconfig/config.go:37-45 | at most one context per cluster, and exactly one each when the display names are distinct |
| `KafkactlConfig.New` | internal/kafkactlconfig/config.go:36-48 | the map written in input order, with the display names as keys and the last write winning; current context is ""; an empty input gives an empty map |
| `KafkactlConfig.CollisionKeepsLater` | internal/kafkactlconfig/config.go:39-44 | two clusters with one display name leave a single context, holding the later cluster's brokers |
| `KafkactlConfig.Marshal` | internal/kafkactlconfig/config.go:26-34 | succeeds exactly when the encoder does, returning its bytes; on failure it returns no bytes and the encoder's error wrapped as `yaml encode: ...` |
| `KclConfig.New` | internal/kclconfig/config.go:36-53 | one config per input cluster, in input order, holding that cluster unchanged, with `SeedBrokers` equal to its brokers and a timeout of 10000 ms |
| `KclConfig.Marshal` | internal/kclconfig/config.go:21-34 | on success the output is the `Preamble` line `# name: <Name>` (or `# name: <Name>, alias: <Alias>` when the alias is non-empty), a newline, then the encoded body; on encoder failure it returns no bytes and the encoder's error unwrapped |
| `KclConfig.FirstLineIsPreamble` | internal/kclconfig/config.go:24-29 | when name and alias have no newline, a document's first line is its preamble and the rest is the encoded body |
| `Scenarios.KafScenario` | cmd/mskrc/main.go:56-74 | one cluster `prod-1` with brokers `b1:9092,b2:9092` and no alias gives the single kaf entry `prod-1`, with both brokers and version 3.5.1 |
| `Scenarios.KafkactlScenario` | cmd/mskrc/main.go:130-149 | the same cluster aliased `production` gives exactly the one kafkactl context `production` with both brokers |
| `Scenarios.FilterScenario` | cmd/mskrc/main.go:143-147 | `--cluster staging` over the resolved `prod-1` and `staging` keeps exactly the `staging` record |

## Left out

- AWS SDK calls (`LoadDefaultConfig`, `ListClusters`, `GetBootstrapBrokers`) and the `log.Fatalf` on a config failure are network I/O. Their answers are inputs (`Aws.Listing`, `Aws.ClusterInfo.Bootstrap`).
- `ListClusters` pagination: the code reads only the first page of results (it never follows `NextToken`). The model takes the clusters of that page as given.
- Nil SDK fields (`ClusterName`, `BootstrapBrokerString`, `KafkaVersion`): the code dereferences them unchecked, so a nil field panics. The model assumes they are present.
- Command dispatch (`ffcli`, `flag.FlagSet` registration), the usage/`ErrHelp` path, the `unable to get clusters:` and `marshal:` wrapping in the layered subcommands and the `unable to encode kaf config:` wrapping in the old one (main.go:65), and printing to standard output with a trailing newline: this is process plumbing.
- The YAML (v2, v3) and TOML encoders are third-party; their output text is not modelled. Each `Marshal` takes the encoder as a possibly-failing function.
- `pairFlag.String` ranges over a Go map, so its output order is unspecified.
- `Aws.ResolveAll`, `Mskrc.GetClusters`, `Legacy.GetClusters`, `Mskrc.ResolveFirstError` and `Legacy.ResolveFirstError`: they return the corrected lookup error, whose message names the ARN. The code as written prints the pointer's address instead; that error is `Aws.LookupErrorAsWritten` (see "## Findings").
- Output is modelled as a sequence of characters, not UTF-8 bytes.
- Library configuration types (`kclclient.Cfg`, kaf's `config.Config` and `config.Cluster`) carry only the fields the code sets.
- Aliasing of the slices the code shares (`Brokers` slices copied by reference into each emitter) is not visible in a value model.

## Findings

| source | as written | input that shows it | evidently intended | confidence | as-written member | corrected member |
|---|---|---|---|---|---|---|
| cmd/mskrc/main.go:195 | `fmt.Errorf("arn: %v: %w", ci.ClusterArn, err)` formats `ClusterArn`, which is a `*string`; `%v` prints the pointer's address | any cluster whose `GetBootstrapBrokers` call fails: the message reads `arn: 0xc000...: <error>` | the message names the cluster's ARN (dereference the pointer) | not executed; high | `Aws.LookupErrorAsWritten`, `Aws.AsWrittenLosesArn` | `Aws.LookupError`, `Aws.LookupErrorNamesArn` |
| main.go:105 | the same formatting of the `*string` ARN | as above | as above | not executed; high | `Aws.LookupErrorAsWritten`, `Aws.AsWrittenLosesArn` | `Aws.LookupError`, `Aws.LookupErrorNamesArn` |
