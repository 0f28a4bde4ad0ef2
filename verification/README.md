# onice_conversion metadata spec engine, in Dafny

This project models the metadata *spec* engine of `onice_conversion`. A spec is a chain of
declarative nodes. Each node pulls a few metadata keys out of a directory tree, and the
chain merges the nodes' results into one metadata mapping.

The model covers:
- **The chain machinery of `BaseSpec`**: `+` composition, `children()`, `specifies`,
  `parse` (the head's result deep-merged with each child's in order), the `parent` setter,
  and the `to_dict` / `from_dict` round trip.
- **The path-token nodes**:
  - `Path` and `Paths`: a template with `{name}` fields is turned into a glob pattern, the
    matches are parsed back, and the captured values are collapsed per key, with ambiguity
    detection;
  - `Glob`: metadata is substituted into a template and exactly one match is picked.
- **The external-file nodes** (`JSON`, `YAML`, `Mat`):
  - the field-path descent with its key-then-attribute fallback;
  - selecting one file through a glob;
  - the shared `loaded_files` cache;
  - `Mat`'s repeated unwrapping of singleton arrays;
  - the struct-to-dict/list conversion of `load_clean_mat`.
- **`parse_nested_spec`**.
- **The pure parts of `IntrospectionMixin`**: the ordered, de-duplicated constructor
  parameter names, the frame merge of `_get_init_args`, and `_full_name`.

Everything is modelled with immutable datatypes and pure functions:
- **The directory** is a `Files.Dir`: a root, a listing of entries (relative path,
  directory flag, file content as a value tree) in the platform's enumeration order, and
  an uninterpreted glob matcher.
- **Loaded files** are `Values.Value` trees: dict, list, numpy array with its shape, MATLAB
  struct, loader-hook object, set, and scalars.
- **The process-wide file cache** is a map from absolute path to loaded tree. It is passed
  in and returned explicitly (`ExternalFile.Outcome`).
- **Python exceptions** are `Wrappers.Error` values inside a `Result`.
- **A chain** is the sequence of its nodes' configurations (`Nodes.Node`). Composition and
  traversal of the mutable `_child` / `_parent` links are modelled separately, on a heap of
  objects (`Linking`).

## Modules

| file | module | models |
|---|---|---|
| wrappers.dfy | Wrappers | `Option`, `Result`, the exception classes |
| seqs.dfy | Seqs | order-keeping de-duplication, flatten, reverse, map |
| values.dfy | Values | value trees, metadata mappings, `dict_deep_update` |
| template.dfy | Template | `{...}` groups, the glob pattern, `parse.Parser` named fields and matching, `str.format` |
| files.dfy | Files | the base directory, `pathlib` and `glob` globbing, `only_dirs` |
| gather.dfy | Gather | `_gather_list_of_dicts` and `_recursive_dedupe_dicts` |
| nodes.dfy | Nodes | node configurations and `Path` construction |
| pathspec.dfy | PathSpec | `Path`, `Paths` and `Glob` |
| matfile.dfy | MatFile | `load_clean_mat` and the unwrapping loop of `Mat._sub_select` |
| externalfile.dfy | ExternalFile | `_sub_select`, file resolution, `_load_file`, the cache, `_specifies` |
| chain.dfy | Chain | `specifies` and `parse` over a chain |
| linking.dfy | Linking | `__add__`, `children()` and the `parent` setter on linked objects |
| descriptor.dfy | Descriptor | `to_dict`, `from_dict` and the class registry |
| nested.dfy | NestedSpec | `parse_nested_spec` |
| introspection.dfy | Introspection | `_full_sig_names`, the merge in `_get_init_args`, `_full_name` |

## Behaviour worth noting

The model follows the code in each of these cases:
- `__add__` (`base_spec.py:129-143`) has no cycle check, so `a + a`, or any composition
  that closes a loop, is accepted. `Linking.SelfAddLoops` shows the result: the object
  becomes its own child and parent, `children()` never ends, and every further `+` ends in
  `RecursionError`.
- The external-file cache is keyed by the absolute path alone, whatever loader filled the
  entry. A warm cache is therefore transparent only between nodes whose loaders load alike
  (`ExternalFile.CoherentCacheTransparent`, `Chain.ParseAgainSameResult`).
  `ExternalFile.CacheSharedAcrossLoaders` is an input where a `JSON` node reads the tree a
  simplified `Mat` node cached.
- `Mat`'s unwrapping loop tests that the largest dimension is 1, not that every dimension
  is 1. An array of shape `(0, 1)` enters the loop and fails at element 0 with
  `IndexError`. An array of shape `(1, 0)` enters it once and unwraps, without error, to
  its empty row of shape `(0,)`. A 0-d array makes `np.max` fail with `ValueError`.
- An external-file path with `*` that matches nothing raises `AmbiguityError`, as it does
  for several matches. This is the code's branch at `external_file.py:124-127`.
- `Glob` on zero matches, `Paths._parse`, the external `_specifies` and
  `parse_nested_spec` on a dict value: see "## Findings".
- `Chain.NodeSpecifies`, `Chain.NodeParse`, `Chain.Parse` and `NestedSpec.NestedEval` use the
  corrected `Paths._parse`, `Glob._parse` and external `_specifies` from "## Findings", so
  that the chain-level properties say something about chains that can succeed.
  `Chain.NodeSpecifiesAsWritten`, `Chain.NodeParseAsWritten`, `Chain.ParseAsWritten` and
  `NestedSpec.NestedEvalAsWritten` dispatch to the versions the code contains.
  `Chain.PathsBreaksParse` shows that, as written, every chain holding a `Paths` node fails.
  `Chain.SpecifiesAsWrittenMismatch` shows a file node whose key `parse` returns but
  `specifies` does not list.

`_gather_list_of_dicts`, `_recursive_dedupe_dicts` and `AmbiguityError` are imported from
`utils.py`, but that file does not define them. They are modelled from their use in
`Path._parse` and `Paths._parse`:
- gather the candidates' values per key;
- collapse each key to its single value, or raise `AmbiguityError` when the values
  disagree and `raise_on_dupes` is set;
- otherwise keep the set of values.

`dict_deep_update` is also external. It is modelled as a recursive right-biased merge of
dicts.

## Model

| member | source | states |
|---|---|---|
| Seqs.Dedupe | onice_conversion/utils.py:28-37 | the names kept are exactly the input's names, without repeats and never more of them |
| Seqs.DedupeKeepsFirstOccurrenceOrder | onice_conversion/utils.py:29-37 | kept names appear in the order of their first occurrence in the input |
| Seqs.DedupeSnoc | onice_conversion/utils.py:34-37 | looking at one more name appends it exactly when it has not been collected yet |
| Values.DeepUpdate | onice_conversion/spec/base_spec.py:55 | the merge holds the keys of both mappings; a key the update lacks keeps the old value; the update's value wins unless both values are dicts, which are merged recursively, giving the union of their keys |
| Values.UpdateLeafWins | onice_conversion/spec/base_spec.py:55 | at any depth, a non-dict value the update holds at a key path is what the merge holds there |
| Values.BaseLeafKept | onice_conversion/spec/base_spec.py:55 | at any depth, a non-dict value of the base survives unless the update sets its path or a non-dict on a prefix of it |
| Values.DeepUpdateIdentity | onice_conversion/spec/base_spec.py:49-55 | merging with `{}` on either side changes nothing, so a chain of one node returns that node's result |
| Values.DeepUpdateIdempotent | onice_conversion/spec/base_spec.py:55 | merging a mapping into itself gives the same mapping |
| Values.LeafConflictExample | onice_conversion/spec/base_spec.py:55 | `{"a": 1}` then `{"a": 2}` merges to `{"a": 2}`: the later leaf wins |
| Values.NestedMergeExample | onice_conversion/spec/base_spec.py:55 | `{"a": {"x": 1}}` then `{"a": {"y": 2}}` merges to `{"a": {"x": 1, "y": 2}}` |
| Template.Segments | onice_conversion/spec/path.py:58 | a template reads as literal characters and groups, where a group runs from `{` to the first `}` after it and no group body holds a `}` |
| Template.SegmentsLossless | onice_conversion/spec/path.py:58 | writing the groups and characters back gives the template unchanged |
| Template.Globify | onice_conversion/spec/path.py:58 | the glob pattern is never longer than the template |
| Template.GlobifyReplacesGroups | onice_conversion/spec/path.py:58 | the glob pattern is the template with every `{...}` group replaced by one `*` and every other character kept |
| Template.NamedFields | onice_conversion/spec/path.py:43-48 | the named fields are without repeats and are exactly the names of the template's named groups |
| Template.NamedFieldsNonEmpty | onice_conversion/spec/path.py:43-44 | the named fields are non-empty exactly when some group of the template is named |
| Template.Match | onice_conversion/spec/path.py:68-71 | a successful parse captures exactly the template's named fields |
| Template.MatchSound | onice_conversion/spec/path.py:68-71 | filling the template with the captured values gives back the matched text |
| Template.TryWidthSound | onice_conversion/spec/path.py:68-71 | the same holds for each width the matcher tries for a leading group |
| Template.MatchComplete | onice_conversion/spec/path.py:68-71 | every text made by filling an all-named template with non-empty values is matched |
| Template.Substitute | onice_conversion/spec/path.py:176-177 | `format(**metadata)` succeeds exactly when every group names a present keyword and no brace is stray, and then gives the template filled with the rendered values; a missing keyword is a `KeyError` naming it |
| Files.GlobRel | onice_conversion/spec/path.py:61 | `base.glob(pattern)` yields exactly the entries whose relative path the pattern matches |
| Files.GlobAbs | onice_conversion/spec/path.py:188-189 | `glob.glob` on an absolute pattern yields exactly the entries whose absolute path matches |
| Files.OnlyDirs | onice_conversion/spec/path.py:190-191 | the `only_dirs` filter keeps exactly the matching directories |
| Files.JoinInjective | onice_conversion/spec/external_file.py:129 | two relative paths under the same base give the same absolute path only when they are equal |
| Gather.Gathered | onice_conversion/spec/path.py:104 | one key's gathered values are the candidates' values for it, one per candidate, in order |
| Gather.Collapse | onice_conversion/spec/path.py:104-105 | it succeeds exactly when no key has two distinct values, and then maps every key to the value all candidates agree on; otherwise `AmbiguityError` names a key whose values disagree |
| Gather.CollectSets | onice_conversion/spec/path.py:122-123 | every key maps to the set of exactly the values some candidate holds for it |
| Gather.CollapseOrderIndependent | onice_conversion/spec/path.py:100-112 | the collapse depends only on which candidates there are, not on their order or repeats |
| Gather.CollectSetsOrderIndependent | onice_conversion/spec/path.py:119-123 | the set-valued collapse depends only on which candidates there are |
| Gather.SameCapturesSameAmbiguity | onice_conversion/spec/path.py:104-105 | two candidate lists with the same members are ambiguous on the same keys |
| Nodes.MakePathNode | onice_conversion/spec/path.py:36-44 | `Path(format)` is built exactly when the template has a named field; otherwise `ValueError` |
| PathSpec.PathSpecifies | onice_conversion/spec/path.py:46-48 | `Path._specifies` lists exactly the template's named groups |
| PathSpec.Candidates | onice_conversion/spec/path.py:64-71 | the candidates are exactly the captures of entries the template parses, each holding every named field |
| PathSpec.ParseDir | onice_conversion/spec/path.py:50-76 | the results are exactly the captures of entries that both the glob pattern and the template accept; `ValueError` exactly when there are none |
| PathSpec.PathParse | onice_conversion/spec/path.py:79-112 | `Path._parse` succeeds exactly when some entry parses and all parsed matches agree on every named field, and then gives each field the agreed value; it fails with `ValueError` exactly when nothing parses, and otherwise with `AmbiguityError` carrying the `Paths` hint and a witnessed pair of disagreeing matches |
| PathSpec.AgreeUnambiguous | onice_conversion/spec/path.py:102-105 | when all parsed matches agree, no key's gathered values differ |
| PathSpec.DisagreeAmbiguous | onice_conversion/spec/path.py:102-105 | when two parsed matches disagree on a named field, some key's gathered values differ |
| PathSpec.AgreeIffUnambiguous | onice_conversion/spec/path.py:102-105 | over exactly the parsed matches, agreement holds exactly when no key is ambiguous |
| PathSpec.PathsParse | onice_conversion/spec/path.py:114-123 | the corrected `Paths._parse` succeeds exactly when some entry parses, and maps every named field to the set of values the parsed matches hold |
| PathSpec.PathsParseAsWritten | onice_conversion/spec/path.py:119-123 | `Paths._parse` as written never returns: called with metadata it is a `TypeError`; without metadata it raises `NameError('a_list')` exactly when the directory scan succeeds |
| PathSpec.PathParseOrderIndependent | onice_conversion/spec/path.py:61-76 | reordering the directory listing changes neither the `Path` nor the `Paths` result |
| PathSpec.GlobSpecifies | onice_conversion/spec/path.py:151-153 | `Glob._specifies` is exactly `(key,)` |
| PathSpec.GlobFormat | onice_conversion/spec/path.py:175-182 | the substitution succeeds exactly when the template can be formatted with the metadata; a missing key is re-raised as a hinted `KeyError`; without metadata it is a `TypeError` |
| PathSpec.GlobCandidates | onice_conversion/spec/path.py:188-191 | the matches are exactly the entries whose absolute path matches, restricted to directories when `only_dirs` is set |
| PathSpec.GlobParse | onice_conversion/spec/path.py:155-204 | a path without `*` is returned unchecked; with `*`, one match gives `{key: path}`, several give `AmbiguityError`, none gives `FileNotFoundError` (corrected); a substitution error propagates |
| PathSpec.GlobParseAsWritten | onice_conversion/spec/path.py:194-199 | as written, `FileNotFoundError` is never raised, and the only divergence from the corrected version is an `IndexError` where it reports the missing file |
| PathSpec.GlobZeroMatchCounterexample | onice_conversion/spec/path.py:194-199 | in an empty directory, `Glob("raw", "*")` raises `IndexError` as written and `FileNotFoundError` when corrected |
| MatFile.MemberValue | onice_conversion/spec/external_file.py:253-254 | `matobj.__dict__[name]` is the value of the last member of that name |
| MatFile.Clean | onice_conversion/spec/external_file.py:236-277 | a struct becomes a dict with exactly its field names; an array with a direct struct element becomes a list of the same length whose elements are converted; anything else is kept |
| MatFile.MembersToMap | onice_conversion/spec/external_file.py:248-261 | `_todict` has exactly the struct's field names as keys |
| MatFile.StructFieldsConverted | onice_conversion/spec/external_file.py:248-261 | each key of `_todict` holds the converted value of the struct member of that name |
| MatFile.CleanIsTidy | onice_conversion/spec/external_file.py:231-277 | after conversion of loader output no struct is left at the top, in a produced dict or list, or directly inside an array |
| MatFile.LoadClean | onice_conversion/spec/external_file.py:218-241 | `load_clean_mat` keeps the loaded variables' names and converts each variable's value |
| MatFile.MaxDim | onice_conversion/spec/external_file.py:194 | `np.max(shape)` is a dimension of the shape and no dimension exceeds it |
| MatFile.Unwrap | onice_conversion/spec/external_file.py:193-197 | the loop ends with a value it would not enter, leaves such a value unchanged, and otherwise fails with `ValueError` or `IndexError` |
| MatFile.UnwrapNested | onice_conversion/spec/external_file.py:194-195 | however deep the singleton nesting, unwrapping gives back the wrapped value |
| MatFile.UnwrapExamples | onice_conversion/spec/external_file.py:193-197 | a scalar nested five arrays deep unwraps to the scalar; a length-3 array comes back unmodified |
| ExternalFile.NormIndex | onice_conversion/spec/external_file.py:103 | an integer index is in range exactly when `-n <= i < n`; a negative index counts from the end |
| ExternalFile.Step | onice_conversion/spec/external_file.py:97-105 | a dict key present gives its value; a dict miss, with no attribute fallback, is an error; a list or array index succeeds exactly when it is in range; a hook object falls back to its attributes only on a missing key; all failures are `TypeError` or `AttributeError` |
| ExternalFile.Walk | onice_conversion/spec/external_file.py:92-105 | a field-path descent fails only with `TypeError` or `AttributeError` |
| ExternalFile.SubSelect | onice_conversion/spec/external_file.py:78-113 | an empty tuple gives the initial `{}`; a one-item tuple is a single step; failures propagate |
| ExternalFile.WalkConcat | onice_conversion/spec/external_file.py:95-105 | descending along `p + q` is descending along `p`, then along `q`; an error along `p` stops the descent |
| ExternalFile.WalkFollowsKeys | onice_conversion/spec/external_file.py:95-105 | where nested dicts hold every key of the path, the selection is the nested value |
| ExternalFile.MatSelect | onice_conversion/spec/external_file.py:178-197 | `Mat._sub_select` never returns a singleton-wrapped array, and passes on a selection error |
| ExternalFile.LoadFile | onice_conversion/spec/external_file.py:159-209 | a file loads only if it is a listed, non-directory entry; a missing path is `FileNotFoundError` |
| ExternalFile.ResolveFile | onice_conversion/spec/external_file.py:117-129 | a path without `*` is used unchecked; a path with `*` resolves to the only entry it matches, and otherwise raises `AmbiguityError` |
| ExternalFile.ResolveFileFindsOnlyMatch | onice_conversion/spec/external_file.py:118-123 | a wildcard path matching exactly one entry resolves to it |
| ExternalFile.Select | onice_conversion/spec/external_file.py:140 | the result is the single-key map from the key to the selected value, present exactly when the selection succeeds; a failed selection's error is passed on |
| ExternalFile.FileParse | onice_conversion/spec/external_file.py:115-140 | a path resolution error is returned with the cache untouched; with the cache on, a cached path is selected from the cached tree without loading; otherwise the result is a fresh load and selection, and a successful load is stored; a failed load stores nothing; a result has only the node's key; a cached tree is never changed; with the cache off the cache is neither read nor written |
| ExternalFile.CacheOffIgnoresCache | onice_conversion/spec/external_file.py:131-138 | with the cache off, the contents of the cache have no influence on the result |
| ExternalFile.CoherentCacheTransparent | onice_conversion/spec/external_file.py:131-138 | a cache filled by loaders like the node's own gives the same result as a cold run and stays coherent |
| ExternalFile.CoherentAcrossLoaders | onice_conversion/spec/external_file.py:132-138 | a cache coherent for one loader is coherent for any loader that loads alike |
| ExternalFile.CacheSharedAcrossLoaders | onice_conversion/spec/external_file.py:21 | the class-level cache is shared across loaders: a `JSON` node's result changes after a simplified `Mat` node cached the same path |
| ExternalFile.FileSpecifies | onice_conversion/spec/external_file.py:74-76 | the corrected `_specifies` is exactly `(key,)` |
| ExternalFile.FileSpecifiesAsWritten | onice_conversion/spec/external_file.py:74-76 | `tuple(self.key)` lists one one-character string per character of the key |
| ExternalFile.FileSpecifiesAsWrittenSplitsKey | onice_conversion/spec/external_file.py:76 | the written and the corrected `_specifies` agree exactly for one-character keys; for `subject_id` the written one lists ten names, none of them the key |
| Chain.NodeParse | onice_conversion/spec/base_spec.py:51-55 | with the corrected `Paths`, `Glob` and file `_specifies`, a node's `_parse` result has exactly the keys the node declares, and only file nodes touch the cache |
| Chain.Declared | onice_conversion/spec/base_spec.py:82-86 | one entry per node, holding that node's own corrected `_specifies`, in chain order |
| Chain.SpecifiesMembers | onice_conversion/spec/base_spec.py:82-88 | a key is in `specifies` exactly when some node of the chain declares it |
| Chain.SpecifiesConcat | onice_conversion/spec/base_spec.py:82-88 | the keys declared by two chains joined are the first chain's followed by the second's, duplicates kept |
| Chain.SpecifiesSnoc | onice_conversion/spec/base_spec.py:84-86 | the last node's keys come after all the others' |
| Chain.NodeEvalKeysDeclared | onice_conversion/spec/base_spec.py:51-55 | every node run within `parse` succeeds only with the keys it declares |
| Chain.RunKeys | onice_conversion/spec/base_spec.py:49-57 | a successful merge fold holds exactly the keys `specifies` lists |
| Chain.Parse | onice_conversion/spec/base_spec.py:33-57 | with the corrected nodes, a successful `parse` has a key exactly when `specifies` lists it |
| Chain.FirstErrorAborts | onice_conversion/spec/base_spec.py:53-55 | once a prefix of the chain raises, the whole parse ends with that error and that cache |
| Chain.LastWriterWins | onice_conversion/spec/base_spec.py:55 | in a successful parse every node succeeded, and a leaf value survives unless a later node returns the same key |
| Chain.NodeEvalCacheTransparent | onice_conversion/spec/external_file.py:131-138 | each node run gives the same result from any two caches that agree with what its loader loads |
| Chain.RunCacheTransparent | onice_conversion/spec/base_spec.py:49-57 | a whole chain gives the same result from any two such caches and leaves a cache that still agrees |
| Chain.ParseAgainSameResult | onice_conversion/spec/base_spec.py:49-57 | parsing again with the warm cache from a first parse gives the same result, when the file nodes load alike |
| Chain.NodeSpecifiesAsWritten | onice_conversion/spec/external_file.py:74-76 | as written, only a file node's `_specifies` differs from the corrected one; it agrees exactly for one-character keys, and otherwise does not list the key |
| Chain.SpecifiesAsWrittenAgrees | onice_conversion/spec/base_spec.py:82-88 | when every file key is one character, the as-written `specifies` is the corrected one |
| Chain.NodeParseAsWritten | onice_conversion/spec/base_spec.py:51-55 | as written, a `Paths` node always raises, with `TypeError` when metadata is passed; a `Glob` node differs from the corrected one only by an `IndexError` where that one fails; other nodes and the cache are unchanged |
| Chain.RunOkAllOk | onice_conversion/spec/base_spec.py:51-55 | a successful `parse` means every node's `_parse` succeeded |
| Chain.PathsBreaksParse | onice_conversion/spec/base_spec.py:51-55 | as written, `parse` of any chain holding a `Paths` node fails |
| Chain.SpecifiesAsWrittenMismatch | onice_conversion/spec/external_file.py:76 | as written, a lone file node with a key of length other than one returns its key, while `specifies` does not list it |
| Linking.SetParent | onice_conversion/spec/base_spec.py:105-109 | the setter fails with `TypeError` exactly for a non-spec value; otherwise only the object's parent link changes |
| Linking.Add | onice_conversion/spec/base_spec.py:129-143 | a non-spec operand is a `TypeError` before anything changes; a successful `+` keeps the set of objects and every link inside it |
| Linking.ChildrenExactly | onice_conversion/spec/base_spec.py:111-127 | `children()` yields exactly the linked chain from the immediate child to the tail, in link order, and nothing without a child |
| Linking.FollowLinked | onice_conversion/spec/base_spec.py:122-127 | following child links from the head of a linked chain yields that chain |
| Linking.FollowIsLinked | onice_conversion/spec/base_spec.py:122-127 | whatever following the child links yields is a linked chain starting at the object |
| Linking.AddAtTail | onice_conversion/spec/base_spec.py:133-136 | at the tail, `a + b` makes `b` the child of `a` and `a` the parent of `b`, and changes nothing else |
| Linking.AddPassesDown | onice_conversion/spec/base_spec.py:138-141 | below the tail, `a + b` is the child's `+ b`, since `a`'s reassignment keeps its link |
| Linking.AddAppends | onice_conversion/spec/base_spec.py:129-143 | for distinct objects within the recursion limit, the children of `a` become its old children, then `b`, then `b`'s own children; `b`'s parent is the former tail; no other link changes |
| Linking.AddBeyondLimit | onice_conversion/spec/base_spec.py:141 | a chain deeper than the recursion limit cannot be extended and raises `RecursionError` |
| Linking.SelfAddLoops | onice_conversion/spec/base_spec.py:129-143 | `a + a` is accepted and makes `a` its own child and parent; then `children()` never ends and every further `+` raises `RecursionError` |
| Descriptor.InitArgs | onice_conversion/spec/base_spec.py:17-31 | `_init_args` always holds `retype`, stored as `None` |
| Descriptor.Describe | onice_conversion/spec/base_spec.py:172-176 | a child entry has exactly `module`, `class` and `kwargs`, holding the node's module, class name and constructor arguments |
| Descriptor.ToDict | onice_conversion/spec/base_spec.py:163-178 | the head's entry has exactly the four keys, and `children` lists one entry per following node, in order, each without a `children` field |
| Descriptor.Get | onice_conversion/spec/base_spec.py:196-197 | `d[k]` succeeds exactly when the key is present; a miss is `KeyError(k)`; a non-dict is `TypeError` |
| Descriptor.Import | onice_conversion/spec/base_spec.py:196 | `import_module` succeeds exactly for the names of the two spec modules |
| Descriptor.Lookup | onice_conversion/spec/base_spec.py:196 | `getattr(module, name)` succeeds exactly for a spec class the module defines |
| Descriptor.Required | onice_conversion/spec/base_spec.py:197 | a required constructor argument is found exactly when it is passed, otherwise `TypeError` |
| Descriptor.Flag | onice_conversion/spec/base_spec.py:197 | an absent flag takes its default; a passed one must be a bool and is used as passed |
| Descriptor.DecodeField | onice_conversion/spec/base_spec.py:197 | a decoded `field` argument encodes back to the value it was read from |
| Descriptor.DecodeEncodeField | onice_conversion/spec/base_spec.py:197 | every field path decodes back from its encoding |
| Descriptor.Construct | onice_conversion/spec/base_spec.py:197 | a constructed node is of the requested class, and a constructed `Path`/`Paths` has a named field |
| Descriptor.ConstructFile | onice_conversion/spec/base_spec.py:197 | a file node's own constructor arguments rebuild it |
| Descriptor.ConstructPathToken | onice_conversion/spec/base_spec.py:197 | a valid path-token node's own constructor arguments rebuild it |
| Descriptor.Instantiate | onice_conversion/spec/base_spec.py:196-197 | a rebuilt node has the module and class the entry names |
| Descriptor.InstantiateDescribe | onice_conversion/spec/base_spec.py:196-197 | any entry holding a valid node's module, class and arguments rebuilds that node, whatever else it holds |
| Descriptor.InstantiateAll | onice_conversion/spec/base_spec.py:199-203 | every child entry is rebuilt in order, and a failure is the failure of some entry |
| Descriptor.Len | onice_conversion/spec/base_spec.py:199 | `len` succeeds exactly for a dict, list, string, set or array with an axis, and gives its number of items; anything else is `TypeError` |
| Descriptor.FromDict | onice_conversion/spec/base_spec.py:181-205 | the rebuilt chain is the head entry's node, alone when `children` is empty of any sized kind, and otherwise followed by the nodes of the list's or array's entries in order; errors from the head, from a missing `children` and from `len` are passed on; a non-empty `children` that is not a list or an array fails with `TypeError` |
| Descriptor.EmptyChildrenHeadOnly | onice_conversion/spec/base_spec.py:199 | an empty `children` of any sized kind leaves the head alone |
| Descriptor.NonListChildrenRejected | onice_conversion/spec/base_spec.py:200-201 | a non-empty dict, string or set as `children` raises `TypeError` |
| Descriptor.RoundTrip | onice_conversion/spec/base_spec.py:163-205 | `from_dict(to_dict(chain))` rebuilds the same nodes in the same order, for every chain of valid nodes |
| Descriptor.UnknownClassRejected | onice_conversion/spec/base_spec.py:196 | a class missing from its module raises `AttributeError`; an unknown module raises `ImportError` |
| NestedSpec.AsWrittenFrom | onice_conversion/spec/__init__.py:26-32 | the loop as written succeeds only when no remaining value is a dict, and then adds exactly the remaining keys |
| NestedSpec.ParseNestedAsWritten | onice_conversion/spec/__init__.py:24-34 | as written, a successful result means no value was a dict, and it has exactly the input's keys |
| NestedSpec.CorrectedFrom | onice_conversion/spec/__init__.py:26-32 | the corrected loop adds exactly the remaining keys |
| NestedSpec.ParseNested | onice_conversion/spec/__init__.py:24-34 | the corrected `parse_nested_spec` result has exactly the input's keys |
| NestedSpec.AgreeWithoutDicts | onice_conversion/spec/__init__.py:25-34 | when no value is a dict, the code as written and the corrected code give the same outcome |
| NestedSpec.FirstDictKeyError | onice_conversion/spec/__init__.py:27-28 | as written, a dict value after plain values raises `KeyError` for that dict's key |
| NestedSpec.CopiedUnchanged | onice_conversion/spec/__init__.py:31-32 | a value that is neither a dict nor a spec is copied unchanged under its key |
| NestedSpec.ChildrenIgnored | onice_conversion/spec/__init__.py:29-30 | a spec value's chained children do not affect the outcome; only the head's own `_parse` runs |
| NestedSpec.PathsValueFails | onice_conversion/spec/__init__.py:30 | as written, a `Paths` spec value always fails, with `NameError('a_list')` exactly when its directory scan finds a match and with `ValueError` otherwise |
| NestedSpec.GlobValueFails | onice_conversion/spec/__init__.py:30 | a `Glob` spec value always fails with `TypeError`, since no metadata is passed |
| NestedSpec.NestedDictExample | onice_conversion/spec/__init__.py:27-28 | `{"subject": {"id": 1}}` raises `KeyError('subject')` as written and gives the nested dict when corrected |
| Introspection.Keep | onice_conversion/utils.py:32-33 | the names kept are exactly the names other than `self`, `args` and `kwargs` |
| Introspection.AddParams | onice_conversion/utils.py:31-37 | one signature's parameters extend the collected names as de-duplicating the whole walk so far would |
| Introspection.FullSigNames | onice_conversion/utils.py:15-39 | the loop yields the reference result: distinct names, never `self`, `args` or `kwargs`, and exactly every other parameter name of every class in the MRO |
| Introspection.SigNamesMembers | onice_conversion/utils.py:29-37 | a name is collected exactly when it is not excluded and some class of the MRO has it |
| Introspection.SigNamesFirstOccurrenceOrder | onice_conversion/utils.py:24-37 | names appear in the order the walk from the most basic class first meets them |
| Introspection.InitArgs | onice_conversion/utils.py:57-64 | the collected arguments are exactly the parameter names some frame holds |
| Introspection.InnermostFrameWins | onice_conversion/utils.py:58-62 | a collected argument has the value of the innermost frame holding it |
| Introspection.FullName | onice_conversion/utils.py:75 | the full name is the module name, one `.`, then the class name |
| Introspection.FullNameInjective | onice_conversion/utils.py:75 | for class names without a dot, the full name determines both the module and the class |

## Left out

- Filesystem I/O (`Path.absolute()`, `relative_to`, `is_dir`, `open`) is left out because it is I/O. The directory is an input: a listing of entries with directory flags and contents. The glob matcher is an uninterpreted parameter, and `Files.Join` stands for `base / rel` without `pathlib` normalisation of `..`, `.`, repeated separators or absolute `rel`.
- `json.load`, `yaml.load` and `scipy.io.loadmat` are foreign parsers. Their output is the entry's content tree.
- `Mat(simplified=False)` returns the entry's content as loaded. This does not model that plain `loadmat` returns record arrays rather than struct objects.
- The `JSON` object hook is not modelled, because it is a foreign callable. Hook-built objects appear only as `Obj` values in loaded trees.
- `Descriptor.Construct`: it rejects with `TypeError` a non-`None` `hook` and any non-`str` `format`, `key` or `path`. Python would store or coerce such values. A non-bool flag is also rejected, where Python would use it for its truthiness.
- Descriptor.Import: only the two spec modules and their spec classes form the registry. `from_dict` naming any other importable module or attribute (`BaseSpec` itself, say) is outside the model, which reports `ImportError` or `AttributeError` for it.
- `inspect.getmro`, `inspect.signature` and `inspect.stack` are foreign introspection. The model takes as inputs the MRO's signatures as name lists and the frames' locals as maps. In `Descriptor.InitArgs`, the signatures of `object`, `ABC` and `IntrospectionMixin` contribute no names.
- The `parse` library's format specifications (`{name:d}` and the like), case-insensitive matching, and Unicode letter classes are left out. Fields match one or more characters, shortest first, and a field name is the text before `:`; the names parsed are strings.
- Two parts of `str.format` are left out: `{{` and `}}` escapes, and format specs or conversions. A brace outside a group is reported as `ValueError`. `Template.Render` writes dicts, lists and other non-scalars as a fixed marker, not Python's `repr`.
- Newlines in paths, and the `re` module's `.` not matching a newline, are not modelled.
- `dict_deep_update`'s handling of lists is left out, as the merge is external and its list rule is not part of this code. `Values.DeepUpdate` overwrites any non-dict value.
- Attribute access on built-in values (`getattr(some_dict, "keys")`, numpy attributes) is left out. Only hook objects and MATLAB structs have attributes in the model; any other `getattr` is an `AttributeError`.
- `_has_struct` on a 0-d array raises `TypeError` in numpy (a 0-d array cannot be iterated). This is not modelled: the model scans a 0-d array's elements like any other array's.
- numpy dtypes, multi-dimensional indexing and `squeeze_me` are left out. An array is its shape plus its elements along the first axis.
- Dict keys are strings throughout, so a non-string key in loaded content cannot be expressed.
- `retype` is stored but never applied by the code, so it is always `None` here.
- Linking.Add: Python's recursion limit is a `fuel` parameter. Chains at least as deep as the fuel raise `RecursionError`, whatever the interpreter's actual limit.
- The cache is per-process and unsynchronized in the code. Concurrency is left out: the cache is threaded through explicitly.
- Template.Substitute: the `str.format` field forms `{a[x]}` (indexing) and `{a.b}` (attribute access) are not modelled, and neither is the `ValueError` for an unclosed `{a{b}`. Each such field is read as a plain name, the text before any `:`. It is looked up whole, and a miss is a `KeyError` naming that text.
- Descriptor.FromDict: iterating an array's entries and indexing them by `'module'` is modelled like a list's entries, so a non-dict element gives `TypeError` where numpy would raise `IndexError`. `len` of a hook object, which has no length here, is a `TypeError`.
- Error messages are not modelled beyond the error class, the key or path they name, and whether a hint was appended.
- `examples/smear/reese.py`, `docs/conf.py`, `onice_conversion/containers/__init__.py`, `onice_conversion/nwbconverter.py` and `onice_conversion/__init__.py` are not part of this model. They are I/O scripts, documentation configuration and thin wrappers outside the spec engine.

## Findings

| source | as written | input that shows it | evidently intended | confidence | as-written member | corrected member |
|---|---|---|---|---|---|---|
| onice_conversion/spec/path.py:194-199 | the zero-match test is `len(paths) < 0`, which never holds, so zero matches reach `paths[0]` and raise `IndexError` | `Glob("raw", "*")` on an empty directory | `FileNotFoundError` when no path matches | high (not executed) | PathSpec.GlobZeroMatchCounterexample | PathSpec.GlobParse |
| onice_conversion/spec/path.py:119-123 | `Paths._parse(base_path)` takes no `metadata`, so the chain's call is a `TypeError`; called directly, it reads the undefined `a_list` and raises `NameError` | any `Paths` node in a chain, or any directory with one parsed match | every named field mapped to the set of its matched values | high (not executed) | PathSpec.PathsParseAsWritten | PathSpec.PathsParse |
| onice_conversion/spec/external_file.py:76 | `_specifies` is `tuple(self.key)`, one entry per character of the key | `JSON(path="f.json", key="subject_id", field="id")` declares ten one-letter keys | `(key,)`, the key `_parse` returns | high (not executed) | ExternalFile.FileSpecifiesAsWrittenSplitsKey | ExternalFile.FileSpecifies |
| onice_conversion/spec/__init__.py:27-28 | `out_dict[key].update(...)` reads a key that is not there yet, raising `KeyError` | `{"subject": {"id": 1}}` | `out_dict[key] = parse_nested_spec(value, base_dir)` | high (not executed) | NestedSpec.NestedDictExample | NestedSpec.ParseNested |
