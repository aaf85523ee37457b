# swirl-node EC2 client: a Dafny model of its request and response core

`lib/swirl.js` is a small Node.js client for the Amazon EC2 query API. A call
goes through these steps:

1. It checks that both credentials are set.
2. It expands array-valued parameters into indexed keys (`expand`).
3. It adds the six protocol fields (`Action`, `Version`, `AWSAccessKeyId`,
   `Timestamp`, `SignatureMethod`, `SignatureVersion`).
4. It signs the parameters with an HMAC-SHA256 over a canonical string made
   from the parameters in ascending key order (`sign`).
5. It posts the request. The XML response is parsed by SAX callbacks that
   build a mini DOM of `{name, children, text}` nodes.
6. That tree is folded into plain data (`compact` / `_compact`).

This project models steps 1–4 up to the request body, the four SAX callbacks,
and the compaction. It proves what each promises.

Layout, one module per file:

- `wrappers.dfy`: `Option` and `Result`.
- `jsobject.dfy`: JavaScript objects as ordered association lists.
  - `Put` is `o[k] = v` for any key but `__proto__`: it replaces a key in
    place or appends it.
  - `ToMap` gives the key/value set.
  - `PutAll` is a run of assignments.
- `text.dfy`: the decimal form of an array index, and `String.prototype.replace`
  with a one-character pattern.
- `keyorder.dfy`: the default string order of `Array.prototype.sort` and a
  sort function on keys.
- `expansion.dfy`: `expand`.
- `signing.dfy`: `sign` and `call` up to the request body.
- `dom.dfy`: the mini-DOM node.
- `compaction.dfy`: `compact` and `_compact`.
- `treebuilder.dfy`: the SAX callbacks and their shared stack.
  - The callbacks are a class whose methods update the stack in place.
  - Documents are modelled as elements with character and child content.
  - A theorem says exactly which node a well-formed document leaves on the
    stack.

Where the code and its comments disagree, the model follows the code:

- **Array indices start at 0.** `for (n in value)` enumerates `"0"`, `"1"`,
  and so on, so `["a","b"]` under `InstanceId` becomes `InstanceId.0` and
  `InstanceId.1`. The comment at `lib/swirl.js:152` suggests `.1`, `.2`.
- **Children are stored in reverse document order.** `onEndElementNS` uses
  `unshift`.
- **An element's text is its last non-blank chunk.** A later chunk overwrites
  an earlier one; chunks are not concatenated.
- **`compact` keeps `children[0]`.** This is the root's LAST child element in
  document order. The comment says the root has "one child, ever".
- **With duplicate sibling names, the first in document order wins.** In a
  non-`item` mapping, the later entry in the (reversed) children array
  overwrites the earlier one.
- **A missing document or a root without child elements is an error value.**
  In the code, `compact` throws a `TypeError` on these; the model returns
  `Failure(NoDocument)` and `Failure(NoChildElement)`. A missing credential
  throws a string; the model returns `Failure(MissingCredentials)`.

## Model

| member | source | states |
|---|---|---|
| JsObject.ToMap | lib/swirl.js:142-164 | The key/value set of an object, the first binding of a key counting; its keys are exactly the object's keys |
| JsObject.Put | lib/swirl.js:46-52 | `o[k] = v`: the keys afterwards are the old keys plus `k`, and a new key is appended after all existing properties |
| JsObject.PutToMap | lib/swirl.js:154 | Assigning `o[k] = v` binds `k` to `v` and leaves every other property as it was |
| JsObject.PutDistinct | lib/swirl.js:154 | Assignment never creates a second property with the same key |
| JsObject.PutAllToMap | lib/swirl.js:153-154 | A run of assignments overrides the object with the assigned pairs, a later assignment to a key winning over an earlier one |
| JsObject.PairsMapLastWins | lib/swirl.js:153-154 | After a run of assignments, each key holds the value of its LAST assignment |
| JsObject.PutAllFresh | lib/swirl.js:153-154 | Assignments to keys not yet present and distinct from each other append in order |
| JsObject.KeysOfKeySet | lib/swirl.js:120-121 | The keys `for..in` enumerates are exactly the object's property names |
| Text.NatToString | lib/swirl.js:153-154 | The decimal index string is non-empty, all digits, and one digit exactly for indices below 10 |
| Text.NatToStringValue | lib/swirl.js:153-154 | The index string's digits denote the index, with no leading zero |
| Text.NatToStringInjective | lib/swirl.js:153-154 | Distinct array indices give distinct index strings |
| Text.FirstIndex | lib/swirl.js:149 | The position of the first `#`: it holds `#` and no `#` precedes it |
| Text.ReplaceFirstPresent | lib/swirl.js:154 | `replace("#", n)` replaces only the first `#` with `n`, keeping the rest of the key |
| Text.ReplaceFirst | lib/swirl.js:154 | `s.replace(c, r)` with a one-character pattern; `ReplaceFirstPresent` and `ReplaceFirstAbsent` give its result |
| Text.ReplaceFirstAbsent | lib/swirl.js:154 | `replace` changes nothing in a string without `#` |
| KeyOrder.Less | lib/swirl.js:123 | The string order of `keys.sort()`: character by character, a proper prefix first |
| KeyOrder.LessFirstDifference | lib/swirl.js:123 | `a < b` exactly when `a` is a proper prefix of `b`, or the first differing character is smaller in `a` |
| KeyOrder.LessTransitive | lib/swirl.js:123 | The default sort order on keys is transitive |
| KeyOrder.LessTrichotomy | lib/swirl.js:123 | Any two keys are ordered one way or the other, or equal |
| KeyOrder.LessAsymmetric | lib/swirl.js:123 | No two keys are each less than the other |
| KeyOrder.LessIrreflexive | lib/swirl.js:123 | No key is less than itself |
| KeyOrder.Insert | lib/swirl.js:123 | Inserting into a sorted key list keeps it sorted and adds exactly the one key |
| KeyOrder.Sort | lib/swirl.js:123 | `keys.sort()` is ascending, of the same length, and a permutation of the keys |
| KeyOrder.SortedUnique | lib/swirl.js:123 | A multiset of keys has exactly one ascending arrangement, so the sorted order does not depend on the input order |
| KeyOrder.SortDistinct | lib/swirl.js:120-123 | Sorting distinct keys orders them strictly |
| KeyOrder.DistinctSameSet | lib/swirl.js:120-123 | Two duplicate-free key lists with the same members are permutations of each other |
| Expansion.Expanded | lib/swirl.js:139-165 | The expanded query never holds two properties with the same key |
| Expansion.Expand | lib/swirl.js:139-165 | The nested loop builds exactly the expansion: each parameter's assignments, in order, over a fresh object |
| Expansion.ExpandedDenotes | lib/swirl.js:139-165 | The expanded key/value set is the run of all assignments, a later one to the same key winning |
| Expansion.Pattern | lib/swirl.js:149-150 | The key an array is expanded under: the key itself when it holds a `#`, else the key with `.#` appended |
| Expansion.PatternShape | lib/swirl.js:149-150 | The pattern always holds a `#`, begins with the original key, and is the key itself when it already holds a `#` |
| Expansion.IndexedKey | lib/swirl.js:149-154 | The key of element `i`: the first `#` of the pattern replaced by `i` in decimal; `IndexedKeyShape` spells it out |
| Expansion.IndexedKeyShape | lib/swirl.js:149-154 | Element `i` of `k` is keyed `k.i` when `k` has no `#`, and `k` with its first `#` replaced by `i` otherwise |
| Expansion.IndexedKeyInjective | lib/swirl.js:149-154 | Two elements of one array never share an expanded key |
| Expansion.ExpandArray | lib/swirl.js:146-154 | An array of n elements expands to exactly n properties, element `i` under its indexed key, with no other keys |
| Expansion.ExpandArrayAppends | lib/swirl.js:153-154 | The element assignments of an array never collide, so each appends one property |
| Expansion.InstanceIdExample | lib/swirl.js:146-154 | `{InstanceId: ["a", "b"]}` expands to `InstanceId.0` and `InstanceId.1`, in that order |
| Expansion.ExpandScalars | lib/swirl.js:156-161 | A query with no arrays expands to itself |
| Signing.SortedKeysPresent | lib/swirl.js:120-128 | Every sorted key names a property of the query, so `query[key]` is defined |
| Signing.EntriesSnoc | lib/swirl.js:125-128 | Copying one more sorted key appends that key and its value |
| Signing.SortedEntriesKeys | lib/swirl.js:120-128 | The keys of the sorted copy are the query's keys in ascending order |
| Signing.SortedEntries | lib/swirl.js:117-128 | The object `sign` builds: the query's properties copied in ascending key order; `SortedEntriesSpec` characterises it |
| Signing.StringToSign | lib/swirl.js:130 | `POST`, the host, `/` and the form encoding of the sorted copy, joined by newlines |
| Signing.SortedEntriesSpec | lib/swirl.js:115-131 | The sorted copy has the query's length, strictly ascending distinct keys, and the query's key/value set |
| Signing.SortedEntriesCanonical | lib/swirl.js:115-131 | Two queries have the same sorted copy if and only if they have the same key/value set |
| Signing.StringToSignDeterministic | lib/swirl.js:130 | The canonical string depends only on the host and the key/value set of the query |
| Signing.Sign | lib/swirl.js:115-131 | The two loops produce the HMAC, under the secret, of `POST`, host, `/` and the form-encoded sorted copy joined by newlines |
| Signing.SortedPrefixFresh | lib/swirl.js:125-128 | Each key the copy loop assigns is new to the copy, so the copy grows in sorted order |
| Signing.Augmented | lib/swirl.js:46-51 | After the six assignments, the query holds the expanded parameters overridden by the six protocol fields, with no key twice |
| Signing.ProtocolFieldsUpdates | lib/swirl.js:46-51 | The six assignments equal overriding with the six protocol fields |
| Signing.Call | lib/swirl.js:34-52 | Fails with the credentials error exactly when a credential is unset; otherwise the parameters are expanded, augmented, then signed |
| Signing.SignedQueryFields | lib/swirl.js:43-52 | The final parameters: the expansion overridden by the protocol fields, plus `Signature` computed over exactly those, with no key twice |
| Signing.SignedQueryOrderIndependent | lib/swirl.js:43-52 | Queries expanding to the same key/value set get the same final parameters and signature |
| Compaction.CompactFieldsKeys | lib/swirl.js:227-231 | The mapping built by the loop holds exactly the names of the children seen |
| Compaction.CompactFieldsLastWins | lib/swirl.js:228-231 | Each name holds the compaction of the last child in the array with that name |
| Compaction.CompactNode | lib/swirl.js:207-240 | `_compact` is defined for every node; termination follows from the tree structure |
| Compaction.CompactNodeShape | lib/swirl.js:207-240 | A leaf gives its text or `null`; any `item` child gives an array of all children compacted in order; otherwise a mapping from each child name to its last child's compaction |
| Compaction.RootResult | lib/swirl.js:195-199 | `{c.name: _compact(c)}` for the first child `c` in the children array, or the `TypeError` when there is none |
| Compaction.Compact | lib/swirl.js:189-200 | `{firstChild.name: _compact(firstChild)}`, or the error when there is no child; the node loses its first child |
| TreeBuilder.RemoveSpacesEmpty | lib/swirl.js:80 | A chunk is ignored exactly when every character is white space by JavaScript's `\s` |
| TreeBuilder.WithText | lib/swirl.js:78-82 | The stack after a characters event; `CharactersEffect` characterises it |
| TreeBuilder.Closed | lib/swirl.js:84-89 | The stack after an end-element event; `EndEffect` characterises it |
| TreeBuilder.CharactersEffect | lib/swirl.js:78-82 | Character data changes only the top node, and only its text, to the chunk; blank chunks change nothing |
| TreeBuilder.EndEffect | lib/swirl.js:84-89 | With a parent on the stack, end-element pops one node and puts it first among the parent's children; otherwise nothing changes |
| TreeBuilder.Builder.constructor | lib/swirl.js:63 | The stack starts empty |
| TreeBuilder.Builder.StartElement | lib/swirl.js:70-76 | Pushes a node with the element name, no children and null text |
| TreeBuilder.Builder.Characters | lib/swirl.js:78-82 | The stack becomes the character-data update of the old stack |
| TreeBuilder.Builder.EndElement | lib/swirl.js:84-89 | The stack becomes the end-element update of the old stack |
| TreeBuilder.Builder.EndDocument | lib/swirl.js:91-94 | Pops the top node and returns its compaction, or the error on an empty stack |
| TreeBuilder.RunAppend | lib/swirl.js:69-95 | Feeding two event runs one after the other is feeding their concatenation |
| TreeBuilder.BuiltChildrenReversed | lib/swirl.js:84-89 | A built node's children are its child elements in reverse document order |
| TreeBuilder.CharDataStep | lib/swirl.js:78-82 | A character chunk inside an element updates that element's node to its last non-blank chunk |
| TreeBuilder.ChildStep | lib/swirl.js:84-89 | A closed child element becomes the first child of its parent's node |
| TreeBuilder.RunContent | lib/swirl.js:69-89 | Parsing an element's content on top of a stack builds its node and leaves the rest of the stack alone |
| TreeBuilder.RunElement | lib/swirl.js:69-89 | Parsing a whole element adds its node as the first child of the node below it |
| TreeBuilder.ParseDocument | lib/swirl.js:69-89 | A document leaves exactly its root's node on the stack |
| TreeBuilder.DocumentResult | lib/swirl.js:91-94 | The callback receives the root's last child element, compacted under its name, or the error when the root has none |
| TreeBuilder.DescribeInstancesSampleResult | lib/swirl.js:166-188 | The indented response in the comment above `compact` gives `{reservationSet: [{imageId: "foo"}]}` |
| TreeBuilder.ItemsReversed | lib/swirl.js:84-89 | Two `item` elements come out as an array in reverse document order |
| TreeBuilder.DuplicateNameKeepsFirst | lib/swirl.js:227-231 | Of two same-named siblings, the first in document order is kept |

## Left out

- The HTTPS connection, request headers, `Content-Length` and the sending of the body (`lib/swirl.js:10-20`, `54-60`, `97-108`) are I/O. `createEC2Client` only wires them up and sets the client's fields, which the model takes as the `Client` datatype.
- The HMAC-SHA256 digest with base64 encoding, and `qs.stringify`, are library code. They are function parameters of `Signing.Sign` and `Signing.Call`. The model proves what is fed to them, not what they compute.
- The clock: the ISO timestamp is a parameter of `Signing.Call`.
- The XML parser `node-xml` is not part of this model. Its output is taken as a sequence of start-element, characters and end-element events. Chunk boundaries of character data and namespace handling are whatever it emits.
- Delivering the result through the callback is not modelled. `Builder.EndDocument` returns the value instead.
- Throwing is modelled as a `Failure` result, so nothing after the throw is modelled.
- JavaScript `for..in` enumerates integer-like keys first, in numeric order. It also enumerates inherited and non-index properties of arrays. The model enumerates properties in insertion order and treats arrays as plain sequences.
- Non-string scalar parameters are carried by their string form.
- `Array.prototype.sort` compares UTF-16 code units; `KeyOrder.Less` compares Unicode code points. The two orders differ only for keys with characters outside the Basic Multilingual Plane.
- The order of keys inside a compacted mapping is not modelled. `Compacted.Dict` is a map.
- An array element that is itself an array is copied as it is, not expanded further, as in the code.
- Assigning the key `__proto__` sets an object's prototype in JavaScript, and creates no property. `JsObject.Put` treats it as an ordinary key. This matters only when a parameter, a response element or a child element is named `__proto__`.
- A parameter value that is a plain object is not representable in `Value`: it is neither a string nor an array. `expand` copies such a value through unchanged, and `qs.stringify` encodes it as it sees fit.
