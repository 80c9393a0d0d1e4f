# jSite key dialog: the editing state, modelled in Dafny

jSite's key dialog lets the user edit a project's key pair. The public key is the request URI and the private key is the insert URI. This project models the state behind that dialog. The state is the accepted key pair, the two key text fields and the `cancelled` flag. It also includes the two selectors the keys can be copied from: projects, and the user's own web-of-trust identities. Each selector is a list plus a selected index, with -1 for no selection.

Files and modules:

- `optional.dfy` (`Optional`): an `Option` for Java's `null` and for thrown exceptions.
- `entities.dfy` (`Entities`): `Project` and `OwnIdentity`, holding only the fields the dialog reads.
- `java_strings.dfy` (`JavaStrings`): `String.indexOf`, `lastIndexOf` and `substring`, with `-1` for a missing character and `None` for the exception `substring` throws. A string is a sequence of Unicode characters, so positions count characters, not Java's UTF-16 code units.
- `key_strings.dfy` (`KeyStrings`): two pure formats. The first is the key body that "generate" cuts out of a generated URI: after the first `@`, before the last `/`. The second is the label an identity is shown with: `nickname (request URI up to the first ',')`.
- `nickname_order.dfy` (`NicknameOrder`): `compareToIgnoreCase` on nicknames, and the stable sort that `Collections.sort` performs with it.
- `key_dialog.dfy` (`KeyDialogModel`): the `KeyDialog` class, its actions, and the loop that picks the identity matching the keys.

The node's key generator and the "generate a new key pair?" prompt are inputs of `ActionGenerate`. The generator gives either an I/O failure or an insert/request URI pair. The prompt's answer is OK, Cancel or closed-window.

Behaviour of the code worth noting, all of it modelled:

- After `setOwnIdentities`, the LAST identity whose URIs equal the keys is selected. The loop overwrites the selection on every match.
- `cancelled` starts out `false`, the field's default. A dialog that is neither confirmed nor cancelled reports that it was not cancelled.
- "Generate" writes only the two text fields. The generated text reaches `publicKey`/`privateKey` only when OK copies the text fields into them.
- Only an explicit Cancel on the prompt stops generation. Closing the prompt's window returns `CLOSED_OPTION`, which is not `CANCEL_OPTION`, so generation goes ahead. `ClosedOption` models this.
- A URI that cannot be sliced makes `substring` throw. The public field is written first (line 439). So if only the insert URI is malformed, the public text field has already changed when the exception escapes. `ActionGenerate` states exactly this.

## Model

| member | source | states |
|---|---|---|
| JavaStrings.IndexOf | src/main/java/de/todesbaum/jsite/gui/KeyDialog.java:439-440 | `indexOf` gives -1 exactly when the character is absent; otherwise a position holding it with no earlier occurrence |
| JavaStrings.LastIndexOf | src/main/java/de/todesbaum/jsite/gui/KeyDialog.java:439-440 | `lastIndexOf` gives -1 exactly when the character is absent; otherwise a position holding it with no later occurrence |
| JavaStrings.Substring | src/main/java/de/todesbaum/jsite/gui/KeyDialog.java:439-440 | `substring` yields a string exactly when `0 <= begin <= end <= length`, and it is the `end - begin` characters from `begin` on; otherwise it throws |
| KeyStrings.KeyBody | src/main/java/de/todesbaum/jsite/gui/KeyDialog.java:439-440 | the slice of a generated URI after its first `@` and before its last `/`: always shorter than the URI, and defined whenever there is a `/` and no `@`. `KeyBodyOfKeyUri`, `KeyBodyOfSchemelessUri` and `KeyBodyDefined` prove what it returns and exactly when it throws |
| KeyStrings.KeyBodyOfKeyUri | src/main/java/de/todesbaum/jsite/gui/KeyDialog.java:439-440 | slicing `scheme@body/documentname` (no `@` in the scheme, no `/` in the document name) gives back exactly `body`, even when the body holds `@` or `/` |
| KeyStrings.KeyBodyOfSchemelessUri | src/main/java/de/todesbaum/jsite/gui/KeyDialog.java:439-440 | with no `@` anywhere, the slice is everything before the last `/` |
| KeyStrings.KeyBodyDefined | src/main/java/de/todesbaum/jsite/gui/KeyDialog.java:439-440 | the slice exists (no `StringIndexOutOfBoundsException`) exactly when some `/` follows the first `@`, or there is a `/` and no `@` |
| KeyStrings.IdentityLabel | src/main/java/de/todesbaum/jsite/gui/KeyDialog.java:331-336 | no item renders as the empty text; rendering fails (substring throws) exactly when the request URI has no `,` |
| KeyStrings.IdentityLabelFormat | src/main/java/de/todesbaum/jsite/gui/KeyDialog.java:335 | an identity with request URI `prefix,rest` (no `,` in prefix) is labelled `nickname (prefix)` |
| NicknameOrder.CompareIgnoringCase | src/main/java/de/todesbaum/jsite/gui/KeyDialog.java:188 | `compareToIgnoreCase` on nicknames: zero for nicknames equal ignoring ASCII case. `CompareAntisymmetric`, `CompareTransitive` and `CompareZeroIffSameFolding` prove it a valid comparator |
| NicknameOrder.CompareAntisymmetric | src/main/java/de/todesbaum/jsite/gui/KeyDialog.java:188 | swapping the nicknames negates the comparator's result |
| NicknameOrder.CompareTransitive | src/main/java/de/todesbaum/jsite/gui/KeyDialog.java:188 | "sorts no later than" under the comparator is transitive |
| NicknameOrder.CompareZeroIffSameFolding | src/main/java/de/todesbaum/jsite/gui/KeyDialog.java:188 | two nicknames compare equal exactly when they are equal ignoring ASCII case |
| NicknameOrder.SortByNickname | src/main/java/de/todesbaum/jsite/gui/KeyDialog.java:186-188 | the stored identity list is a permutation of the given collection |
| NicknameOrder.SortByNicknameSorted | src/main/java/de/todesbaum/jsite/gui/KeyDialog.java:188 | after sorting, every identity's nickname sorts no later, ignoring case, than every later one's |
| NicknameOrder.SortByNicknameStable | src/main/java/de/todesbaum/jsite/gui/KeyDialog.java:188 | the sort is stable: identities whose nicknames are equal ignoring case keep their relative order |
| NicknameOrder.SortByNicknameOfSorted | src/main/java/de/todesbaum/jsite/gui/KeyDialog.java:184-189 | sorting an already sorted list changes nothing, so setting the stored identities again keeps their order |
| KeyDialogModel.MatchingIdentityIndex | src/main/java/de/todesbaum/jsite/gui/KeyDialog.java:190-197 | the selection is the largest index whose insert and request URIs equal the private and public key, or -1 when none does |
| KeyDialogModel.UniqueMatchIsSelected | src/main/java/de/todesbaum/jsite/gui/KeyDialog.java:190-198 | when exactly one identity's URIs equal the keys, that identity is the one selected |
| KeyDialogModel.CopiedIdentityIsReselected | src/main/java/de/todesbaum/jsite/gui/KeyDialog.java:190-198 | once the keys have been copied from an identity, the selection loop over the same list selects that identity, or a later one with the same two URIs |
| KeyDialogModel.KeyDialog.constructor | src/main/java/de/todesbaum/jsite/gui/KeyDialog.java:45-87 | a new dialog has null keys, empty text fields, `cancelled` false, and empty selectors with no selection |
| KeyDialogModel.KeyDialog.SelectedProject | src/main/java/de/todesbaum/jsite/gui/KeyDialog.java:405 | the selected project is null exactly when the index is -1, else it is an element of the project list |
| KeyDialogModel.KeyDialog.SelectedIdentity | src/main/java/de/todesbaum/jsite/gui/KeyDialog.java:417 | the selected identity is null exactly when the index is -1, else it is an element of the identity list |
| KeyDialogModel.KeyDialog.CopyFromProjectEnabled | src/main/java/de/todesbaum/jsite/gui/KeyDialog.java:311-313 | the project listener's enabling condition, a selected index above -1, holds exactly when a project is selected (so copying does something) |
| KeyDialogModel.KeyDialog.CopyFromIdentityEnabled | src/main/java/de/todesbaum/jsite/gui/KeyDialog.java:323-325 | the identity listener's enabling condition, a selected index above -1, holds exactly when an identity is selected (so copying does something) |
| KeyDialogModel.KeyDialog.SetPublicKey | src/main/java/de/todesbaum/jsite/gui/KeyDialog.java:137-141 | the public key becomes the given key and its text field shows it; a `null` key leaves the key `null` and empties the field; nothing else changes |
| KeyDialogModel.KeyDialog.SetPrivateKey | src/main/java/de/todesbaum/jsite/gui/KeyDialog.java:158-162 | the private key becomes the given key and its text field shows it; a `null` key leaves the key `null` and empties the field; nothing else changes |
| KeyDialogModel.KeyDialog.EditPublicKeyText | src/main/java/de/todesbaum/jsite/gui/KeyDialog.java:299 | typing into the public key field changes only that field |
| KeyDialogModel.KeyDialog.EditPrivateKeyText | src/main/java/de/todesbaum/jsite/gui/KeyDialog.java:293 | typing into the private key field changes only that field |
| KeyDialogModel.KeyDialog.SetProjects | src/main/java/de/todesbaum/jsite/gui/KeyDialog.java:170-176 | the project list becomes the given collection in its order and the project selection is cleared; keys, fields and identities are unchanged |
| KeyDialogModel.KeyDialog.SetOwnIdentities | src/main/java/de/todesbaum/jsite/gui/KeyDialog.java:184-199 | the stored identities are the given ones, sorted ignoring case, stably and as a permutation; the selection is the last identity matching both keys, or -1; keys, fields and projects are unchanged |
| KeyDialogModel.KeyDialog.SelectProject | src/main/java/de/todesbaum/jsite/gui/KeyDialog.java:74-75 | a user's pick in the project selector changes only the project index |
| KeyDialogModel.KeyDialog.SelectIdentity | src/main/java/de/todesbaum/jsite/gui/KeyDialog.java:77-78 | a user's pick in the identity selector changes only the identity index |
| KeyDialogModel.KeyDialog.ActionOk | src/main/java/de/todesbaum/jsite/gui/KeyDialog.java:386-391 | the keys become the text fields' contents and `cancelled` becomes false; nothing else changes |
| KeyDialogModel.KeyDialog.ActionCancel | src/main/java/de/todesbaum/jsite/gui/KeyDialog.java:396-399 | `cancelled` becomes true; keys and text fields are untouched |
| KeyDialogModel.KeyDialog.WindowClosing | src/main/java/de/todesbaum/jsite/gui/KeyDialog.java:100-105 | closing the window is the cancel transition |
| KeyDialogModel.KeyDialog.ActionCopyFromProject | src/main/java/de/todesbaum/jsite/gui/KeyDialog.java:404-411 | with no selection nothing changes; otherwise the public key and field become the project's request URI and the private key and field its insert URI |
| KeyDialogModel.KeyDialog.ActionCopyFromIdentity | src/main/java/de/todesbaum/jsite/gui/KeyDialog.java:416-423 | with no selection nothing changes; otherwise the public key and field become the identity's request URI and the private key and field its insert URI |
| KeyDialogModel.KeyDialog.ActionGenerate | src/main/java/de/todesbaum/jsite/gui/KeyDialog.java:428-442 | a cancelled prompt or a generator I/O error changes nothing. Otherwise the public field becomes the request URI's key body, then the private field the insert URI's. A URI that cannot be sliced stops there. The accepted keys never change |

## Left out

- Swing layout, borders, buttons, mnemonics and accelerators (lines 222-377): presentation only.
- `pack()` and centring on the screen (lines 209-213): these depend on the AWT screen size.
- `setVisible(false)` in OK and Cancel: window visibility is not modelled. Both transitions change only the fields named above.
- The I18n label registry and every localised message, including the text of the error dialog shown on a generator I/O error. `GenerationFailed` carries the exception's message instead.
- The `JOptionPane` prompts are replaced by the `ConfirmChoice` input. `Freenet7Interface.generateKeyPair()` is a network call, replaced by the `GeneratedKeys` input. A returned array with fewer than two elements is not modelled.
- `synchronized` blocks: the model is single-threaded.
- The enabled state of the copy actions is not a field. The listeners' condition (lines 311-313, 323-325) is kept as the predicates `CopyFromProjectEnabled` and `CopyFromIdentityEnabled`. Each action starts enabled and follows that condition only from its selector's first event on.
- `ComboBoxModelList` internals are not part of this model. Each selector is a `seq` plus an index. Indices outside -1 to the list's length, which make Swing throw, are excluded by `SelectProject`/`SelectIdentity`.
- NicknameOrder.CompareIgnoringCase: folds only ASCII `A`-`Z`; the full Unicode case mapping of `compareToIgnoreCase` is not modelled. It also compares characters by Unicode code point, while Java compares UTF-16 code units. So outside the Basic Multilingual Plane the order can differ. For example, Java sorts "😀" (U+1F600, high surrogate 0xD83D) before "ｂ" (U+FF42), and the model sorts it after.
- NicknameOrder.SortByNickname: a functional stable insertion sort stands in for `Collections.sort`. For this `ArrayList`, `Collections.sort` calls `ArrayList.sort`, which sorts the list's backing array in place with TimSort (stable). The model replaces the field with a freshly sorted sequence instead. The result is the same list, because a stable sort's result is determined by the comparator. The in-place steps are not modelled.
- A `null` key passed to `setPublicKey`/`setPrivateKey` is modelled as `None`: the key becomes `null` and the text field is emptied, as `setText(null)` does.
- `null` nicknames and URIs inside projects and identities are not modelled; `Project` and `OwnIdentity` hold plain strings. A `null` nickname makes the comparator at line 188 throw. A `null` identity URI makes the match at line 193 or the label at line 335 throw. A `null` project URI would be copied like a `null` key.
- JavaStrings.IndexOf, JavaStrings.LastIndexOf: positions count Unicode characters, not UTF-16 code units. A supplementary character before the `@` or `/` therefore shifts Java's index but not the model's. The slices they delimit are the same.
- `Project` has many more fields in jSite. Only its request and insert URIs are read here, so only they are modelled.
