# raduga in Dafny

A model of the decision and lookup logic of raduga, a small tool that defines AWS
CloudFormation stacks in Python and deploys them. The model covers the following.

- **The stack lifecycle layer** (`Cfn`).
  - It classifies stack statuses.
  - It decides whether `create_stack_in_cfn` creates a stack, updates it or refuses, and says what it sends.
  - It finds stacks by tags.
  - It filters and orders stack events, and keys parameters and outputs.
- **The top-level object** (`Raduga`).
  - It resolves each stack's environment from the base variables, the per-stack variables and their `_default` entries.
  - It selects stacks.
  - It models what `deploy` and `printS` do for each selected stack.
- **The credential store** (`Config`).
  - It names sections `cr-<name>`.
  - It encodes option values as text and decodes them again.
  - It finds the credentials whose tags match a filter: none, one, or an error.
- **Credentials and targets** (`Aws`).
  - It parses `k=v,k=v` tags.
  - It gives the view of credentials safe to print.
  - It models the interactive questionnaire, the derived S3 bucket name, and the region override of a `Target`.
- **Images** (`Ec2`). It covers the tag filters and the none/one/many outcomes of `find_ami`, and the stopped-instance guard of `create_ami`.
- **Distributions** (`DistMgr`).
  - It merges requirement sets by key, later entries winning.
  - It models the match-or-fail step that runs before any distribution is activated.

Supporting modules:

- `Wrappers`: Option, Result, the Python exceptions raised, and keyword arguments that are absent, None or given.
- `Dicts`: `dict(pairs)` with the last pair winning, and dictionaries kept in insertion order.
- `Strings`: `split`, `join`, `strip` and `startswith`.
- `Filters`: keeping the elements that pass a test, and what the number kept says.

Remote services are oracles.
- A CloudFormation connection is a function from a stack id to its description or the error code.
- The EC2 image store is a sequence of images and a map of instance states.
- The URL where a template is uploaded is a function of the stack name.
- The stack id a create or update call returns is a function of the stack name.
- The ARN that IAM reports is a parameter.
- Python callables are function parameters: `Requirement.parse`, the package environment's `best_match`, and the call of a stack class on an environment.

Where state changes in place, the model uses classes: `Environment`, `Raduga`, `Config`, `AWSCfn`, `AWSEC2` and `DistributionsManager`.

Several behaviours follow the code where a reader might expect otherwise:
- More than one matching credential set makes `find_credentials` evaluate the undefined name `RuntimeException` (raduga/config.py:117). The model reports `NameError`.
- An option value that evaluates to an empty dictionary is falsy and is read back as its text (raduga/config.py:96).
- Credentials whose tags are held as a non-empty string fail on `has_key` when the filter is not empty.
- The store is a `SafeConfigParser` (raduga/config.py:6, 28). Its `set` raises `ValueError` for a value with a `%` that is neither the escape `%%` nor part of a `%(name)s` reference. Tags such as `discount=50%` are therefore refused by `add_credentials` after the section was added, and nothing is saved (raduga/config.py:79-85).
- `Target(credentials=None)` passes the `has_key` test and then reads `options` of None, an `AttributeError` (raduga/aws/__init__.py:80-82). This happens when `find_credentials` found nothing and its result is passed on.
- `create_stack_in_cfn` without `allow_update` fails with `KeyError` when the stack exists (raduga/aws/cfn.py:39).
- A stack this connection has created exists for `stack_exists`. So `deploy` of a name selected twice stops at the second with the "updates not allowed" `RuntimeError`.
- `stack_exists` returns `None`, which is falsy, for a server error other than `ValidationError`. So `create_stack_in_cfn` then goes on to create the stack (raduga/aws/cfn.py:105-114).

## Model

| member | source | states |
|---|---|---|
| Cfn.StatusClassesDisjoint | raduga/aws/cfn.py:227-253 | no status is both being created and created, or either of those and failed-or-rolled-back; a triggered delete is none of the three |
| Cfn.IsBeingCreated | raduga/aws/cfn.py:227-229 | the status is CREATE_IN_PROGRESS or UPDATE_IN_PROGRESS; how the classes relate is stated by the lemmas around it |
| Cfn.IsBeingDeleted | raduga/aws/cfn.py:231-233 | the status is DELETE_IN_PROGRESS |
| Cfn.IsCreated | raduga/aws/cfn.py:235-237 | the status is CREATE_COMPLETE, UPDATE_COMPLETE or UPDATE_ROLLBACK_COMPLETE |
| Cfn.IsDeleted | raduga/aws/cfn.py:239-241 | the status is DELETE_COMPLETE |
| Cfn.IsFailedOrRollbacked | raduga/aws/cfn.py:243-245 | the status is CREATE_FAILED or one of the three ROLLBACK_ states |
| Cfn.IsRollbackTriggered | raduga/aws/cfn.py:247-249 | the status is ROLLBACK_IN_PROGRESS, ROLLBACK_FAILED or ROLLBACK_COMPLETE |
| Cfn.IsDeleteTriggered | raduga/aws/cfn.py:251-253 | the status is DELETE_IN_PROGRESS, DELETE_FAILED or DELETE_COMPLETE |
| Cfn.StatusClassImplications | raduga/aws/cfn.py:231-253 | a triggered rollback is a failure; DELETE_COMPLETE and DELETE_IN_PROGRESS are triggered deletes |
| Cfn.UnclassifiedStates | raduga/aws/cfn.py:227-253 | of boto's valid statuses exactly the four update-cleanup and update-rollback-in-progress/failed ones fall in no class |
| Cfn.NonDeleteStates | raduga/aws/cfn.py:7 | a status is kept exactly when it is listed and does not start with `DELETE_` |
| Cfn.NonDeleteStatesExcludeDeletes | raduga/aws/cfn.py:7 | no kept status is a delete state |
| Cfn.StackExists | raduga/aws/cfn.py:105-114 | `stack_exists`, over the remote, and the stacks this connection created; its outcomes are stated by StackExistsCases |
| Cfn.StackExistsCases | raduga/aws/cfn.py:105-114 | True exactly when this connection created the stack or it is described with a status other than DELETE_COMPLETE; False exactly when it was not created here and is DELETE_COMPLETE or describing it is a `ValidationError`; None, the fall-through, exactly for any other server error |
| Cfn.ChooseCall | raduga/aws/cfn.py:37-42 | the create / update / refuse choice on the value `stack_exists` returned; stated by CreatePlanDecision |
| Cfn.CreatePlan | raduga/aws/cfn.py:14-53 | what `create_stack_in_cfn` sends or the error it raises; stated by CreatePlanDecision and CreatePlanArguments |
| Cfn.CreatePlanDecision | raduga/aws/cfn.py:14-44 | a missing `stack` or `stack_name` is an error; otherwise create exactly when the stack does not exist (this connection has not created it, and it has no description or is DELETE_COMPLETE), update exactly when it exists and `allow_update` is true, an error exactly when it exists and updates are not allowed |
| Cfn.CreatePlanArguments | raduga/aws/cfn.py:23-26 | an issued call carries the stack name, the uploaded template's URL, the stack's capabilities, the parameters or `[]` when absent or None, and `tags` exactly when passed |
| Cfn.AWSCfn.constructor | raduga/aws/cfn.py:10-12 | a connection starts with nothing uploaded, no call issued and no stack created |
| Cfn.AWSCfn.CreateStackInCfn | raduga/aws/cfn.py:14-54 | an error of the decision above is returned and nothing is uploaded, called or created; otherwise the stack's compact JSON is uploaded under its name, the planned call is issued, a created stack is remembered as existing, and the result is the handle of the stack id the call returns |
| Cfn.FindStacks | raduga/aws/cfn.py:123-126 | the result is never longer than the listing |
| Cfn.FindStacksMembers | raduga/aws/cfn.py:123-126 | a stack is returned exactly when its tags contain every requested (key, value) pair |
| Cfn.FindStacksEmptyFilter | raduga/aws/cfn.py:123-126 | an empty filter returns every listed stack, in order |
| Cfn.Unblocked | raduga/aws/cfn.py:194-197 | filtering never adds events |
| Cfn.UnblockedMembers | raduga/aws/cfn.py:194-197 | an event is kept exactly when it is reported and its id is not blocked |
| Cfn.SortByTime | raduga/aws/cfn.py:198 | sorting keeps the length |
| Cfn.SortByTimeSorted | raduga/aws/cfn.py:198 | the sorted events are in ascending timestamp order |
| Cfn.SortByTimePerm | raduga/aws/cfn.py:198 | sorting is a permutation |
| Cfn.SortByTimeStable | raduga/aws/cfn.py:198 | events with equal timestamps keep their relative order |
| Cfn.DescribeEvents | raduga/aws/cfn.py:179-199 | `describe_events(not_these)`; stated by DescribeEventsSpec |
| Cfn.DescribeEventsSpec | raduga/aws/cfn.py:179-199 | a failed describe propagates its error; otherwise the result is sorted by timestamp, is a permutation of the unblocked events, holds exactly the reported events whose id no `not_these` event has, and keeps equal-timestamp events in reported order |
| Cfn.KeyedEntriesLastWins | raduga/aws/cfn.py:201-213 | parameters and outputs are keyed by their `key`; the keys are exactly the entries' keys and the last entry with a key wins |
| Cfn.KeyedEntries | raduga/aws/cfn.py:209 | `dict([(p['key'], p) for p in entries])`; stated by KeyedEntriesLastWins |
| Cfn.DescribeParameters | raduga/aws/cfn.py:201-209 | `describe_parameters`; stated by DescribeKeyed |
| Cfn.DescribeOutputs | raduga/aws/cfn.py:211-213 | `describe_outputs`; stated by DescribeKeyed |
| Cfn.DescribeKeyed | raduga/aws/cfn.py:201-213 | a failed describe is a server error for both; otherwise the parameters and the outputs are keyed by exactly their entries' keys, the last entry with a key winning |
| Raduga.Overlay | raduga/__init__.py:19-25 | the copy of the base environment once some of the stack variables were applied; stated by OverlayNone and OverlayStep |
| Raduga.EnvForStack | raduga/__init__.py:17-25 | the resolved environment, all stack variables applied; stated by the four lemmas below |
| Raduga.StackEntryOverrides | raduga/__init__.py:20-22 | a stack variable with an entry for the stack overrides the base value |
| Raduga.DefaultOnlyWhenMissing | raduga/__init__.py:23-24 | without an entry for the stack the base value stays; `_default` applies only when the base lacks the key |
| Raduga.UntouchedKeys | raduga/__init__.py:19-25 | a key no stack variable names keeps its base value and presence |
| Raduga.EnvForStackKeys | raduga/__init__.py:19-25 | the result's keys are the base keys plus the stack variables with an entry for the stack or a `_default` |
| Raduga.OverlayNone | raduga/__init__.py:19 | the copy starts as the base environment |
| Raduga.OverlayStep | raduga/__init__.py:20-24 | one loop step changes the copy at that variable only, as the two branches say |
| Raduga.Environment.constructor | raduga/__init__.py:10-12 | the base environment is the given one and there are no stack variables |
| Raduga.Environment.Set | raduga/__init__.py:13-14 | the base environment is replaced as a whole; stack variables are unchanged |
| Raduga.Environment.SetStackVar | raduga/__init__.py:15-16 | only the named stack variable is replaced |
| Raduga.Environment.GetEnvForStack | raduga/__init__.py:17-25 | the loop computes the resolved environment, in any iteration order, and changes no field |
| Raduga.SelectionCases | raduga/__init__.py:42-45 | a missing or empty selection means every defined stack, each once; otherwise exactly the given names in order |
| Raduga.DeployStep | raduga/__init__.py:48-54 | what `deploy` does for one name: a `KeyError` for an undefined name or a missing `stack_class`, otherwise the `create_stack_in_cfn` plan for the built stack with `allow_update = False` |
| Raduga.DeployPlan | raduga/__init__.py:51-54 | with `allow_update = False` the plan succeeds exactly when the stack does not exist, is then a create call for that name, and otherwise is the "updates not allowed" `RuntimeError` |
| Raduga.DeployRun | raduga/__init__.py:40-55 | the calls `deploy` issues over a list of names and the error that stops it, each name seeing the stacks created before it; stated by DeployNeverUpdates |
| Raduga.DeployNeverUpdates | raduga/__init__.py:40-55 | `deploy` only issues create calls, one per selected name in order, each for a defined stack with a class that does not exist yet, where a stack created earlier in the run exists; it completes exactly when every name is so, and otherwise stops at the first that is not, with `KeyError` for an undefined name or a missing `stack_class` and the "updates not allowed" `RuntimeError` for an existing stack |
| Raduga.DeployRepeatedName | raduga/__init__.py:47-54 | a name selected twice is never created twice: the run stops no later than the second occurrence, and stops there with the "updates not allowed" `RuntimeError` when it gets that far |
| Raduga.PrintRun | raduga/__init__.py:57-69 | the lines `printS` prints over a list of names and the error that stops it; stated by PrintRunLength and PrintRunLines |
| Raduga.PrintRunLength | raduga/__init__.py:57-69 | `printS` completes exactly when every selected stack is defined with a class, printing three lines per stack; otherwise it stops after the heading of the first one that is not |
| Raduga.PrintRunLines | raduga/__init__.py:63-69 | each stack's lines are `STACK: <name>`, the indented `dump_json()` of the stack built from that stack's environment, and the 79-dash rule |
| Raduga.Raduga.constructor | raduga/__init__.py:28-31 | a new object has an empty environment and no stacks or targets |
| Raduga.Raduga.AddStack | raduga/__init__.py:33-34 | only the entry of that name is replaced; a new name is listed last and the listing stays duplicate-free |
| Raduga.Raduga.SetTarget | raduga/__init__.py:36-37 | the target is stored under its name exactly when `Target` can be built, and the build error is reported otherwise |
| Raduga.DeployOne | raduga/__init__.py:48-54 | one iteration of the loop: the result is DeployStep's, and only a successful create records a call and a created stack |
| Raduga.DeployAll | raduga/__init__.py:47-55 | the loop's calls and the error that ends it are the deploy run's, and the stacks created are the names before the point where it stopped |
| Raduga.Raduga.Deploy | raduga/__init__.py:40-55 | without an `aws` target it fails before any call with a `KeyError`, and with an `aws` target built without credentials it fails before any call with the `AttributeError` for `cfn_bucket_name` that `ensure_bucket_exists` raises; otherwise the calls recorded and the result are exactly the deploy run over the selection, and the stacks created are the names before the point where it stopped |
| Raduga.Raduga.PrintS | raduga/__init__.py:57-69 | the printed lines and the error that ends them are exactly the print run over the selection |
| Config.FindSection | raduga/config.py:90-92 | a section is found exactly when one has the name, and it is the only one of that name |
| Config.EncodeValue | raduga/config.py:81-87 | strings are stored verbatim, dictionaries as text beginning `dict(`, every other type is an error naming the type |
| Config.DecodeValue | raduga/config.py:94-97 | text not beginning `dict(` is kept; anything decoded is a string or a non-empty dictionary with distinct keys |
| Config.DecodeEncode | raduga/config.py:81-97 | decoding undoes encoding for strings not beginning `dict(` and for non-empty dictionaries of plain strings |
| Config.ParseRenderItems | raduga/config.py:85-96 | the dictionary text written by `str` is read back into the same entries |
| Config.EmptyDictReadAsText | raduga/config.py:85-96 | an empty dictionary is read back as the text `dict({})` |
| Config.DictLikeStringReadAsDict | raduga/config.py:83-96 | a string that looks like a stored dictionary is read back as a dictionary |
| Config.DecodeItems | raduga/config.py:96 | decoding succeeds exactly when every value decodes, and decodes each item in place |
| Config.DecodeCredentials | raduga/config.py:94-97 | `_decode_credentials`: every value decoded, or the first error; stated by DecodeItems and FromPairsDecoded |
| Config.FromPairsDecoded | raduga/config.py:95-96 | the options built from the decoded items are the decoded options |
| Config.GetCredentialsIn | raduga/config.py:90-92 | a name without a `cr-` section is a `NoSectionError` |
| Config.Config.GetCredentials | raduga/config.py:90-92 | the same, on the store's sections |
| Config.GetAppended | raduga/config.py:78-92 | `get_credentials` finds and decodes the section appended under a new name |
| Config.DecodedEncoded | raduga/config.py:80-97 | decoding what was written gives the options plus `_class = credentials` |
| Config.AddThenGet | raduga/config.py:77-97 | credentials that round-trip and hold no `%` are read back by `get_credentials` as stored, with `_class` |
| Config.Config.constructor | raduga/config.py:71-72 | the store holds the sections read from the file, distinct by name |
| Config.SetAccepts | raduga/config.py:83-85 | SafeConfigParser's `set` check: a value is accepted exactly when no `%` remains once `%%` and then the `%(name)s` references are removed, each scan from the left |
| Config.NoPercentAccepted | raduga/config.py:83-85 | a value without `%` is always accepted |
| Config.LonePercentRejected | raduga/config.py:83-85 | a `%` followed neither by `%` nor by `(`, in otherwise `%`-free text, is refused |
| Config.DictWithLonePercentRejected | raduga/config.py:85 | the stored text of tags `discount=50%` is refused |
| Config.EscapedPercentAccepted | raduga/config.py:83 | `50%%` is accepted |
| Config.VarRefAccepted | raduga/config.py:83 | a `%(name)s` reference followed by `%`-free text is accepted |
| Config.StoreError | raduga/config.py:82-87 | storing an option fails exactly when its type is unhandled, a `RuntimeError` naming the type, or its text is refused by `set`, a `ValueError` |
| Config.SetOptions | raduga/config.py:80-87 | the loop sets `_class` and then each option's encoding; it stops exactly when some option cannot be stored, with that option's error, and otherwise the section holds exactly the encoded credentials |
| Config.Config.AddCredentials | raduga/config.py:77-88 | an existing section is a `DuplicateSectionError` and changes nothing; otherwise a `cr-<name>` section is appended with `_class` and each option's encoding; an unhandled type or a value `set` refuses stops the loop with its error, the section stays and nothing is saved; success saves the sections |
| Config.CredsTags | raduga/config.py:113 | credentials without tags have the empty tag dictionary |
| Config.CredsMatch | raduga/config.py:101-108 | the empty filter matches; dictionary tags match exactly when they contain every filter pair; text tags fail on `has_key` |
| Config.UntaggedMatchesOnlyEmpty | raduga/config.py:101-113 | credentials without tags match only the empty filter |
| Config.Consider | raduga/config.py:110-115 | what one section contributes: a `NoOptionError` without `_class`, nothing for another class, otherwise the decoded credentials when they match; stated by ConsiderHit |
| Config.Collect | raduga/config.py:109-115 | no more credentials are collected than sections are read |
| Config.CollectCount | raduga/config.py:109-120 | nothing is collected exactly when no section contributes, two or more exactly when two sections do, and a single result is the only contributing section's |
| Config.ConsiderHit | raduga/config.py:110-115 | a contributing section has `_class = credentials` and contributes its decoded credentials |
| Config.Outcome | raduga/config.py:116-120 | the three outcomes once all sections were read; stated by FindCredentialsCases |
| Config.FindCredentialsCases | raduga/config.py:109-120 | the result is None exactly when no section matches, an error exactly when two do, and a single result is the decoded credentials of a matching section whose `_class` is `credentials` |
| Config.Config.FindCredentials | raduga/config.py:99-120 | the loop's result is the first error met, or the outcome of the matches collected |
| Aws.ParsePairs | raduga/aws/__init__.py:10 | all tokens parse exactly when each splits into two parts on `=`, giving those parts in order; otherwise a `ValueError` |
| Aws.TagsToDict | raduga/aws/__init__.py:8-10 | parsing succeeds exactly when every comma-separated token is `k=v`, and gives distinct keys |
| Aws.TagsToDictLastWins | raduga/aws/__init__.py:10 | a later token with the same key wins |
| Aws.RenderTags | raduga/aws/__init__.py:9 | the `k1=v1,k2=v2` text `_tags_to_dict` reads, the inverse stated by TagsRoundTrip |
| Aws.TagsRoundTrip | raduga/aws/__init__.py:8-10 | rendering tags free of `,` and `=` and parsing them gives the same dictionary |
| Aws.TagsToDictExample | raduga/aws/__init__.py:9 | "k1=v1,k2=v2" gives k1 = v1 and k2 = v2 |
| Aws.RenderTagsExample | raduga/aws/__init__.py:9 | those pairs render as "k1=v1,k2=v2" |
| Aws.DictOfExample | raduga/aws/__init__.py:10 | two distinct pairs make a dictionary of both, in order |
| Aws.TagsToDictMissingValue | raduga/aws/__init__.py:10 | a token without `=` is an error |
| Aws.TagsToDictTwoSeparators | raduga/aws/__init__.py:10 | a token with two `=` is an error |
| Aws.FromDictItems | raduga/aws/__init__.py:47-49 | the options are keyed by the items' keys |
| Aws.StrView | raduga/aws/__init__.py:24-26 | the printed view holds exactly the present `aws_access_key` and `tags`, with their values, and never the secret key |
| Aws.RecognizedOptionsShape | raduga/aws/__init__.py:13-20 | the four options have distinct names and only `default_region` has a default, `us-east-1` |
| Aws.Answer | raduga/aws/__init__.py:65-72 | a blank answer omits the option or takes its default; a given answer is stripped; the `tags` answer is parsed as tags |
| Aws.Fill | raduga/aws/__init__.py:57-73 | the questionnaire over the options, one answer each; stated by FillRunsOut, FillContents and FillKeys |
| Aws.FillRunsOut | raduga/aws/__init__.py:58-65 | input runs out exactly when fewer answers than options are given and none was rejected |
| Aws.FillContents | raduga/aws/__init__.py:58-73 | after the questionnaire each option holds what its answer gave, and an option whose answer gave nothing is absent |
| Aws.FillKeys | raduga/aws/__init__.py:57-73 | no key other than an option name is added |
| Aws.FromInteractive | raduga/aws/__init__.py:51-73 | the loop's credentials, or its error, are those of the questionnaire |
| Aws.InteractiveAnswers | raduga/aws/__init__.py:65-72 | option by option, the result follows the answer rules above |
| Aws.Sanitize | raduga/aws/__init__.py:93 | `re.sub(r'[^\w\-]', "-", s)`; stated by SanitizeClean |
| Aws.SanitizeClean | raduga/aws/__init__.py:93 | sanitizing keeps the length and every word character or `-`, replaces every other character by `-`, and is idempotent |
| Aws.SanitizeExample | raduga/aws/__init__.py:93 | `user/deploy` becomes `user-deploy` |
| Aws.InferCfnBucketName | raduga/aws/__init__.py:89-94 | an ARN with fewer than six fields is an `IndexError` |
| Aws.BucketNameFromFields | raduga/aws/__init__.py:92-93 | the name is `raduga-cfn-`, ARN field 4, `-`, and the sanitized field 5 |
| Aws.BucketNameExample | raduga/aws/__init__.py:92-93 | arn:aws:iam::123456789012:user/deploy gives raduga-cfn-123456789012-user-deploy |
| Aws.NewTarget | raduga/aws/__init__.py:76-87 | without credentials the keys and bucket name are None; credentials passed as None are an `AttributeError`; with credentials, the target is built exactly when they hold the default region and both keys and the ARN has six fields, a missing option is a `KeyError` in source order, the keys come from the credentials and the bucket name from the ARN; a given `region` overrides the credentials' default region and an explicit None clears it |
| Ec2.TagFilters | raduga/aws/ec2.py:29 | each tag `k` becomes the filter `tag:k` with the same value, and there are no other filters |
| Ec2.GetAllImages | raduga/aws/ec2.py:30 | only images in the store and selected by the owners and filters are returned |
| Ec2.SelectedByTags | raduga/aws/ec2.py:29-30 | the query selects exactly the caller's own images that carry the tags |
| Ec2.CountResults | raduga/aws/ec2.py:30-36 | no results, one result and several results happen exactly as that many own images carry the tags |
| Ec2.FindAmi | raduga/aws/ec2.py:28-36 | `find_ami(**tags)`; stated by FindAmiCases |
| Ec2.FindAmiCases | raduga/aws/ec2.py:28-36 | None exactly when no own image carries the tags, an error exactly when two do, and otherwise the id of the only one |
| Ec2.FindAfterCreate | raduga/aws/ec2.py:14-36 | an image created with the tags is what `find_ami` then finds, when no other own image carries them |
| Ec2.AWSEC2.constructor | raduga/aws/ec2.py:4-5 | the store holds the given images and instances |
| Ec2.AWSEC2.CreateAmi | raduga/aws/ec2.py:14-22 | an instance the store does not hold is the server error `InvalidInstanceID.NotFound` and a non-stopped one an error, both creating nothing; otherwise one image tagged exactly with the tags is added and its id returned |
| DistMgr.ParseSet | raduga/distmgr.py:38-39 | a set parses exactly when each string does, giving the requirements in order |
| DistMgr.ParseSetError | raduga/distmgr.py:38-39 | the error names the first string the parser rejects |
| DistMgr.FlattenSet | raduga/distmgr.py:38-40 | what one set adds to the merged dictionary; stated by FlattenSetEntries |
| DistMgr.Flatten | raduga/distmgr.py:34-41 | the sets in order, each laid over the ones before; stated by FlattenKeyed, FlattenKeys and LaterWins |
| DistMgr.FlattenSetEntries | raduga/distmgr.py:38-40 | within one set each kept requirement sits under its own key, and the keys are exactly those named |
| DistMgr.FlattenKeyed | raduga/distmgr.py:36-41 | the result holds at most one requirement per key, each under its own key |
| DistMgr.FlattenKeys | raduga/distmgr.py:37-41 | the result's keys are exactly the keys of the requirements of all sets |
| DistMgr.LaterWins | raduga/distmgr.py:35-40 | a requirement no later set and no later entry of its set overrides is the one kept for its key |
| DistMgr.DistributionsManager.constructor | raduga/distmgr.py:13-17 | nothing is activated |
| DistMgr.DistributionsManager.FlattenReqs | raduga/distmgr.py:34-41 | the nested loops compute the merged dictionary, or the parse error |
| DistMgr.DistributionsManager.LoadRequirements | raduga/distmgr.py:50-58 | success exactly when every requirement has a match, then all matches are activated in order; otherwise nothing is activated and the first unmatched requirement is reported |
| Dicts.FromPairs | raduga/aws/__init__.py:49 | `dict(pairs)` has exactly the pairs' keys |
| Dicts.LastWins | raduga/aws/cfn.py:209 | a pair no later pair overrides gives its key's value |
| Dicts.ValueFromLastPair | raduga/aws/cfn.py:209 | every value comes from a pair that no later pair overrides |
| Dicts.FromPairsAppend | raduga/distmgr.py:37-40 | building from a concatenation lays the later part over the earlier |
| Dicts.Put | raduga/config.py:80-85 | setting a key keeps keys distinct and updates the key's value; an existing key keeps its place, a new one goes last |
| Dicts.DictOf | raduga/aws/__init__.py:10 | the insertion-ordered dictionary has distinct keys and the same contents as `dict(pairs)` |
| Dicts.DictOfDistinct | raduga/aws/__init__.py:10 | pairs with distinct keys are kept as they are |
| Filters.Keep | raduga/aws/ec2.py:30 | only elements of the input that pass the test are kept |
| Filters.KeepNone | raduga/aws/ec2.py:31-32 | nothing is kept exactly when no element passes |
| Filters.KeepMany | raduga/aws/ec2.py:35-36 | two or more are kept exactly when two elements pass |
| Filters.KeepOne | raduga/aws/ec2.py:33-34 | a single kept element is the only element that passes |
| Strings.Split | raduga/aws/__init__.py:10 | the pieces hold no separator and join back to the string |
| Strings.SplitJoin | raduga/aws/__init__.py:92 | splitting separator-free pieces joined by the separator gives the pieces back |
| Strings.Strip | raduga/aws/__init__.py:65 | a stripped string neither begins nor ends with whitespace |
| Strings.StripSlice | raduga/aws/__init__.py:65 | a stripped string is a middle part of the input with only whitespace cut from each end |
| Strings.StripEmpty | raduga/aws/__init__.py:65-66 | a stripped answer is empty exactly when it is all whitespace |

## Left out

- Remote services are not called. boto's connections and the remote state are oracles: stack descriptions, the stack listing, the image store, instance states and template URLs.
- The S3 key of an uploaded template uses the clock and a random number (raduga/aws/cfn.py:93-103). The model takes the URL as a function of the stack name and records the upload.
- IAM lookups are foreign calls (raduga/aws/__init__.py:28-45). The ARN is a parameter of `NewTarget`, and the console login URL is not modelled.
- `ensure_bucket_exists` and the `get_*_conn` methods only reach boto (raduga/aws/__init__.py:96-126), so they are not modelled. The one exception is the missing `cfn_bucket_name` of a target built without credentials, which Raduga.Raduga.Deploy reports as an `AttributeError`.
- `diff_stack_in_cfn` relies on a foreign JSON diff and on printing (raduga/aws/cfn.py:58-91), so it is not modelled.
- Other boto-only operations are not modelled because they have no logic of their own:
  - `list_stacks`, `delete_stack`, `describe`, `describe_resources`, `get_stack_status`, `get_tags` and `get_template` (raduga/aws/cfn.py);
  - `get_instance_state`, `stop_instance` and `get_ami_state` (raduga/aws/ec2.py).
- Cfn.AWSCfn.CreateStackInCfn: a `BotoServerError` raised by the create or update call is not modelled (raduga/aws/cfn.py:55-56), because the call itself is an oracle that always succeeds.
- The `sleep(1)` in `create_ami` is timing only.
- Describing a stack other than through `stack_exists` reads the snapshot `remote`. The events, parameters and outputs of a stack created by the connection are not modelled.
- Cfn.AWSCfn.CreateStackInCfn: the returned `AWSStack` handle is modelled as the stack id alone.
- Config.EncodeValue: a dictionary is written in insertion order, while Python 2's `str(dict)` uses hash order. The stored text can therefore differ from the model's, but the mapping it decodes to does not.
- Reading and writing the configuration file are I/O (raduga/config.py:10-68). This includes locating it, the `chmod` and `raduga.ini`. The store keeps the sections it would save as a field instead.
- ConfigParser lowercases option names and interpolates `%` references when reading. Neither is modelled, so option names and values are kept as given.
- Config.AddThenGet: stated only for values holding no `%`. `items()` interpolates on read, so `50%%` would read back as `50%`, and `%(name)s` would be replaced by another option or raise `InterpolationMissingOptionError`.
- `items()` merges the options of a `[DEFAULT]` section into every section it reads (raduga/config.py:92, 112). The model has no `[DEFAULT]` section, so each section holds only its own options.
- The `ValueError` that `SafeConfigParser.set` raises is given a fixed text. Python also puts the value's `repr` and the position of the stray `%` in it.
- Ec2.GetAllImages: wildcard (`*`, `?`) and escape (`\`) characters in tag filter values are not modelled. Tag values are matched exactly.
- Raduga.Environment.SetStackVar: the dictionary is stored by value. Python stores the caller's dict by reference, so later changes by the caller would show through.
- A stack class whose call raises is not modelled: `instantiate` is a total function (raduga/__init__.py:50, 67).
- `repr` of strings is modelled without escaping: quoted, for printable ASCII other than the quote and the backslash. Config.DecodeEncode is therefore stated only for dictionaries of such strings.
- `eval` is modelled only for the `dict({...})` text `add_credentials` writes. Any other expression after `dict(` is a syntax error in the model, where Python might evaluate it.
- The prompts printed by `from_interactive` are output only. The answers typed are the parameter `answers`, and end of input is an `EOFError`. The branch that prints a previous answer never runs, because option names are distinct.
- The text of the `ValueError` raised for a malformed tag token is fixed. Python also gives the token's index in it.
- Type names in `Unhandled conf value type` messages are given by the value. The type system is not modelled.
- The strict text of `Credentials.__str__` is not modelled. Aws.StrView models the options it prints.
- `deploy` prints a line per created stack (raduga/__init__.py:55). That line is not modelled.
- Raduga.Raduga.Deploy is passed the connection for the `aws` target rather than opening it. Its ensures states the calls issued but not the templates uploaded.
- Python 2 dictionaries have no defined key order. `stacks.keys()` is modelled as insertion order, and `getEnvForStack` is proved for any order.
- `update`, `undeploy` and `describe` of `Raduga` are empty (raduga/__init__.py:71-78), so there is nothing to model.
- In `distmgr`, the following are not modelled:
  - saving and restoring `sys.path` and `sys.modules`;
  - `activate`'s effect on the interpreter;
  - building and installing eggs;
  - the package folder and environment setup (raduga/distmgr.py:13-29, 44-48, 59-88).
- `requirement_loader` is a generator context manager. DistMgr.DistributionsManager.LoadRequirements models its lookup-and-activate step up to the `yield`.
- `requirement_loader` passes its tuple of sets to `_flatten_reqs` as one argument (raduga/distmgr.py:51). `FlattenReqs` is therefore specified on its own argument list. `LoadRequirements` takes the flattened requirements, not the sets.
- DistMgr.DistributionsManager.FlattenReqs returns the merged dictionary rather than its `.values()` list. The values are the dictionary's range, in no fixed order.
- `Requirement.parse` and `best_match` are parameters. Their algorithms belong to pkg_resources.
- The command-line front ends (raduga/pcli.py, raduga/main.py) are not modelled. They are argument parsing and logging setup.
- Packaging (setup.py) is not modelled.
- The stack template raduga/cfn/build_stack.cfn.py is declarations in a template language, so it is not modelled.
- The image-build orchestration and AMI resolution that `pcli.py` calls as `build_amis` have no code in the repository, so there is nothing to model.
