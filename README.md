# Dockerfile pin extraction and Ecovacs entity resolution, in Dafny

This project models two small pieces of Home Assistant:

- **`script/hassfest/docker.py`**, the hassfest `docker` plugin. It finds the
  `uv` version pinned in `requirements_test.txt` (`_get_uv_version`). It renders
  the Dockerfile template from the six shutdown-stage timeouts and that version
  (`_generate_dockerfile`). `validate` caches the rendered text and reports a
  fixable error when the checked-in Dockerfile differs from it. `generate`
  writes the cached text.
- **`homeassistant/components/ecovacs/util.py`**. `get_supported_entitites`
  builds one entity for every (device, description) pair whose capability set
  passes the description's class check and from which `capability_fn` extracts
  a capability. `get_client_device_id` gives the id the integration logs in with.

Modules:

- `Wrappers` (wrappers.dfy): `Option` and `Result`.
- `PyText` (pytext.dfy): the Python string behaviour the code relies on. This is
  `str.split(c)` and `s.split(c, 1)[0]`, `str(n)` for integers, and
  `str.format` for templates whose fields are plain names. It is defined
  concretely, with round trips (`Join`/`Split`, numeral/`ParseInt`,
  `Escape`/`Format`).
- `HassfestDocker` (hassfest_docker.dfy): the docker plugin. `GetUvVersion` is
  the imperative scan, with its two loops. It is proved equal to `UvVersion`, a
  recursive "first deciding line" function. The lemmas state the scan's
  promises about that function. `Config` is a class with the `cache` map and
  the `errors` list. `Validate` and `Generate` are methods that update or read it.
- `EcovacsUtil` (ecovacs_util.dfy): the entity resolver as functions and
  lemmas. The id generator is a method whose random choice is a
  nondeterministic `:|`.

Code outside the two modelled files is passed in as parameters:

- `PACKAGE_REGEX` is `RequirementPatterns.packageLine`. It returns the
  (package, operator, version) groups.
- `PIP_VERSION_RANGE_SEPARATOR` is `RequirementPatterns.versionRange`. It
  returns group 2.
- `isinstance` is `isInstance`.
- `slugify` is `slugify`.
- The file contents are `requirementsTest` and `onDisk`.
- The timeout constants are the fields of `ShutdownTimeouts`.

`capability_fn` is a partial function (`K --> Option<C>`) that only has to be
defined on capability sets of the description's class. The resolver verifies
only because it applies `capability_fn` after the class check passes. This is
how the model captures the left-to-right evaluation of the two `if` clauses.

The extractor does not stop at the first correctly pinned `uv` line. It stops only if one of that line's
`,`-separated pieces matches the version-range pattern; otherwise it goes on
scanning (`UvVersionContinuesAfterUnmatchedPin`). The model follows the code.

## Model

| member | source | states |
|---|---|---|
| `PyText.Split` | script/hassfest/docker.py:83 | `split(",")` gives at least one piece, and no piece contains the separator |
| `PyText.JoinSplit` | script/hassfest/docker.py:83 | joining the pieces of a split with the separator gives back the text |
| `PyText.SplitJoin` | script/hassfest/docker.py:83 | splitting the join of separator-free pieces gives back exactly those pieces |
| `PyText.BeforeFirst` | script/hassfest/docker.py:83 | `split(";", 1)[0]` is a separator-free prefix, ending at the end of the text or just before its first `;` |
| `PyText.BeforeFirstIsFirstPiece` | script/hassfest/docker.py:83 | `split(";", 1)[0]` equals the first piece of the full split |
| `PyText.BeforeFirstIgnoresTail` | script/hassfest/docker.py:83 | whatever follows the first `;` is never part of the result |
| `PyText.NatToDecimal` | script/hassfest/docker.py:101-102 | the numeral put into the template is non-empty and all digits, with no leading zero: a single digit, or a first digit other than `0` |
| `PyText.NatDecimalRoundTrip` | script/hassfest/docker.py:101-102 | the digits of a natural number read back as that number |
| `PyText.IntToDecimal` | script/hassfest/docker.py:102 | `str(timeout * 1000)`: starts with `-` iff the value is negative; the rest is all digits with no leading zero (the first digit after a `-` is not `0`; a non-negative numeral is one digit or starts with a non-zero digit) |
| `PyText.IntDecimalRoundTrip` | script/hassfest/docker.py:101-102 | the rendered integer, sign included, reads back as the integer |
| `PyText.Format` | script/hassfest/docker.py:101-103 | `str.format` with keyword arguments: a template without braces renders as itself; a missing-field error names a field that is not among the arguments |
| `PyText.FormatEscaped` | script/hassfest/docker.py:101-103 | an escaped literal (braces doubled) renders as the literal itself, and the rest of the template is unaffected |
| `PyText.FormatLiteral` | script/hassfest/docker.py:9-66 | a template stretch without fields renders with every `{{`/`}}` turned into `{`/`}` |
| `PyText.FormatField` | script/hassfest/docker.py:101-103 | a field `{name}` renders as the argument of that name, inserted verbatim; a name not among the arguments fails |
| `HassfestDocker.FirstVersionPart` | script/hassfest/docker.py:83-86 | the inner loop's result is none iff the pattern rejects every piece; otherwise it is what the pattern gave for one of the pieces |
| `HassfestDocker.PinnedVersion` | script/hassfest/docker.py:83-86 | a version found for a specifier comes from a `,`-piece of the text before its first `;` |
| `HassfestDocker.LineDecision` | script/hassfest/docker.py:72-86 | one pass of the loop body: only a parsed `uv` line decides; it raises the pin error iff its operator is not `==` or its version is empty; it never yields the missing-requirement error |
| `HassfestDocker.UvVersion` | script/hassfest/docker.py:69-88 | the reference for the scan, defined as the decision of the first line whose `LineDecision` is not none, or the missing-requirement error when there is none; its meaning is stated by `UvVersionIsFirstDecision` |
| `HassfestDocker.GetUvVersion` | script/hassfest/docker.py:69-88 | the line scan, with its `continue`s, early `raise`/`return` and inner loop over the `,` pieces, returns exactly the first-deciding-line outcome `UvVersion` |
| `HassfestDocker.UvVersionIsFirstDecision` | script/hassfest/docker.py:69-88 | the "Invalid uv requirement" error is raised iff no line decides; otherwise the outcome is the decision of the first deciding line, and no earlier line decides |
| `HassfestDocker.LineDecisionSuccess` | script/hassfest/docker.py:72-86 | a line yields version `v` iff it parses as `uv`, `==` and a non-empty version, and `v` comes from the first piece before the `;` that the version pattern accepts |
| `HassfestDocker.UvVersionSkipsOtherLines` | script/hassfest/docker.py:72-76 | unparsable lines and lines for other packages do not change the outcome |
| `HassfestDocker.UvVersionSkipsUndecided` | script/hassfest/docker.py:71-88 | any number of non-deciding lines in front do not change the outcome |
| `HassfestDocker.UvVersionPinError` | script/hassfest/docker.py:78-81 | if the first `uv` line is not an exact non-empty `==` pin, the pin error is raised whatever follows, even a correct pin |
| `HassfestDocker.UvVersionContinuesAfterUnmatchedPin` | script/hassfest/docker.py:83-88 | a correct `uv==` pin none of whose pieces match raises nothing; the outcome is that of the following lines |
| `HassfestDocker.FirstVersionPartIsFirst` | script/hassfest/docker.py:83-86 | no piece is accepted iff the result is none; otherwise the result is what an accepted piece gave, and every earlier piece was rejected |
| `HassfestDocker.FirstMatchUnique` | script/hassfest/docker.py:83-86 | an accepted piece preceded only by rejected pieces determines the version |
| `HassfestDocker.PinnedVersionIgnoresMarker` | script/hassfest/docker.py:83 | the environment marker after the first `;` never influences the version |
| `HassfestDocker.GraceTime` | script/hassfest/docker.py:92-102 | the rendered timeout `(sum of the six stage timeouts + 10) * 1000`, at least 10000 when no stage timeout is negative |
| `HassfestDocker.GraceTimeMonotone` | script/hassfest/docker.py:92-100 | a longer stage timeout never shortens the grace time |
| `HassfestDocker.TemplateSource` | script/hassfest/docker.py:9-66 | the template as written: the escaped head, the `{timeout}` field, the escaped middle, the `{uv_version}` field and the escaped tail |
| `HassfestDocker.FormatTemplate` | script/hassfest/docker.py:101-103 | formatting the template substitutes only `timeout` and `uv_version` and yields head + timeout + middle + version + tail |
| `HassfestDocker.GenerateDockerfile` | script/hassfest/docker.py:91-103 | rendering raises the uv error unchanged, or yields the template text with the decimal grace time and the pinned version in place; formatting never fails |
| `HassfestDocker.DockerfileCarriesTimeoutAndVersion` | script/hassfest/docker.py:92-102 | the rendered file carries a numeral reading back as `(sum of the six timeouts + 10) * 1000`, and the version the scan found |
| `HassfestDocker.Config.AddError` | script/hassfest/docker.py:113-117 | one error is appended to the list; the cache is unchanged |
| `HassfestDocker.Validate` | script/hassfest/docker.py:106-117 | on success, `cache["dockerfile"]` becomes the rendered text, and exactly one fixable `docker` error is appended iff the file on disk differs from it (otherwise the errors are unchanged); a rendering error changes nothing |
| `HassfestDocker.Generate` | script/hassfest/docker.py:120-123 | the text written is exactly `cache["dockerfile"]`; a missing key fails |
| `HassfestDocker.ValidateThenGenerate` | script/hassfest/docker.py:106-123 | `generate` after a successful `validate` writes the freshly rendered text |
| `EcovacsUtil.EntitiesOfDevice` | homeassistant/components/ecovacs/util.py:43-45 | the entities of one device, in description order; there are at most as many as there are descriptions |
| `EcovacsUtil.SupportedEntities` | homeassistant/components/ecovacs/util.py:34-46 | at most devices × descriptions entities; each is built from a controller device, a description of the tuple, and the capability `capability_fn` returned for a pair that passed `isinstance` |
| `EcovacsUtil.RowEntitiesSupported` | homeassistant/components/ecovacs/util.py:41-45 | every entity of a device's row is built from that device, a description of the tuple, and the exact capability returned |
| `EcovacsUtil.EntitiesOfDeviceMembership` | homeassistant/components/ecovacs/util.py:43-45 | a device yields (d, c, s) iff s is a description, the class check passes and `capability_fn` returns c |
| `EcovacsUtil.SupportedEntitiesMembership` | homeassistant/components/ecovacs/util.py:40-46 | (d, c, s) is in the output iff d is a controller device, s a description, the class check passes and `capability_fn` returns c |
| `EcovacsUtil.SupportedEntitiesAppendDevices` | homeassistant/components/ecovacs/util.py:42-43 | devices form the outer loop: the output for d1 + d2 is the output for d1 followed by the output for d2 |
| `EcovacsUtil.EntitiesOfDeviceAppendDescriptions` | homeassistant/components/ecovacs/util.py:43-45 | descriptions form the inner loop, in tuple order: for one device, the row for s1 + s2 is the row for s1 followed by the row for s2 |
| `EcovacsUtil.SupportedEntitiesOfOnePair` | homeassistant/components/ecovacs/util.py:41-45 | one device and one description give one entity if both checks pass, none otherwise |
| `EcovacsUtil.AlphabetIsUpperOrDigit` | homeassistant/components/ecovacs/util.py:30 | `ascii_uppercase + digits` contains only uppercase ASCII letters and digits |
| `EcovacsUtil.ClientDeviceId` | homeassistant/components/ecovacs/util.py:24-31 | self-hosted: exactly `"HA-" + slugify(location_name)`, so it starts with `HA-`; otherwise 8 characters, each from `ascii_uppercase + digits` |

## Left out

- File I/O. The lines of `requirements_test.txt`, the text of the checked-in
  Dockerfile and the text `generate` writes are parameters and results. A
  missing or unreadable file is not modelled.
- `HassfestDocker.Validate`: `onDisk` stands for what `Path.read_text()`
  returns. That is decoded text with universal newlines (`\r\n` read as
  `\n`), so the comparison at docker.py:112 is on that text, not on the
  file's bytes. Likewise `write_text` may translate `\n` on output; the
  model's `written` is the text before any such translation.
- `PACKAGE_REGEX` and `PIP_VERSION_RANGE_SEPARATOR` live in requirements.py,
  which is not part of this model. They are arbitrary parsers here, so every
  property holds for any pattern. A `None` version group is modelled as the
  empty string; both fail the `not version` test.
- The values of the six shutdown timeout constants are not modelled; they
  are integer parameters. Non-integer (float) constants are not modelled.
- The literal text of `DOCKERFILE_TEMPLATE` is left out. It is modelled as three
  literal stretches around the `{timeout}` and `{uv_version}` fields
  (`TemplateText`), written with their braces doubled.
- `PyText.Format`: only plain field names are modelled. Conversions and
  format specs inside a field (`{x!r}`, `{x:>8}`, `{x:{w}}`), positional and
  attribute or index fields are not. A field whose text contains `{` fails
  with `UnclosedField`; any other field's whole text is looked up as a name.
  The Dockerfile template uses only `{timeout}`, `{uv_version}` and doubled
  braces, so this does not affect it.
- The `integrations` argument of `validate` and `generate` is unused by
  them. The hassfest harness that chooses between the two, and
  `Config`/`Integration` beyond `cache` and the error list, are not modelled.
- `controller.devices(Capabilities)` is not modelled: the device list is
  taken as the controller returns it. The `deebot_client` capability class
  hierarchy becomes the abstract `isInstance`. The `entity_class` constructor
  becomes the `SupportedEntity` record of its three arguments.
- `EcovacsUtil.SupportedEntities`: `capability_fn`'s result counts as
  truthy exactly when it is not `None`. A capability object that defines a
  false `__bool__` or `__len__` is not modelled.
- `EcovacsUtil.ClientDeviceId`: `slugify` is a parameter. The uniform
  distribution of `random.choice` is not modelled; each character is a
  nondeterministic choice from the alphabet. So the contract does not say
  that two calls are unlikely to collide.
