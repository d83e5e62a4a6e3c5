# ssh-book record store, modelled in Dafny

ssh-book is a desktop bookmark manager for SSH targets. Its Tauri back end
keeps one JSON document that holds an ordered list of **groups** and an ordered
list of **servers**. Each server belongs to a group through `group_id`. The GUI
calls eight store commands: the two queries `get_groups` and `get_servers`,
which only load the document, and the six mutating commands `add_group`,
`add_server`, `update_group`, `update_server`, `delete_group` and
`delete_server`. Each of the six mutating commands loads the document,
validates, mutates and saves it. A separate command, `connect_server`, builds
an `ssh` command line for a server.

This project models both parts as pure functions:

- `wrappers.dfy`: `Option` and `Result`.
- `seqs.dfy`: the `Vec`/iterator operations the commands use. These are first-match `position`, `remove` at an index, and order-keeping `retain`.
- `records.dfy`: `Server`, `Group` and `Data`. The port is a `u16`. This file also holds the predicates for referential integrity (`Intact`) and for unique ids.
- `store.dfy`: one function per store command, `Data -> Result<Data, string>`. `Ok(d')` is the dataset that would be saved. `Err(msg)` is the message returned before anything is saved. Loading is `Option<Data> -> Data`, where a missing document reads as empty.
- `commands.dfy`: `Execute` runs one command against the stored document. It saves only on success and answers the two queries without writing.
- `properties.dfy`: lemmas relating the commands. They cover integrity, unique ids, the cascade, and create-then-rename.
- `decimal.dfy`: Rust's decimal `Display` of an unsigned integer, together with its inverse.
- `login.dfy`: the command string that `connect_server` builds.

Behaviour worth noting:

- `add_server` stores the caller's `Server` verbatim, including its `id`. No id is generated and uniqueness is not checked (`Properties.AddServerAcceptsDuplicateId`).
- `update_server` does not re-validate `group_id`. The model keeps this. `Properties.UpdateServerIntactIff` states exactly when integrity survives, and `Properties.UpdateServerCanDangle` gives a concrete dataset that ends up with a dangling reference.
- `auth_type` is a free string. Only `connect_server` rejects values other than `"password"` and `"key"`. The store accepts any value.
- Errors are plain strings (`"Group not found"`, `"Server not found"`, `"Group with id <id> not found"`, `"Invalid authentication type"`). The caller gets no error code.

## Model

| member | source | states |
|---|---|---|
| Seqs.Position | src-tauri/src/lib.rs:138 | the index returned holds a match and no earlier element matches; None exactly when no element matches |
| Seqs.RemoveAt | src-tauri/src/lib.rs:139 | length drops by one, elements before the index stay in place, later ones shift down by one, and the multiset loses exactly that element |
| Seqs.Retain | src-tauri/src/lib.rs:148 | the result is a subsequence of the input (order kept) that contains every kept element with its full multiplicity and no other element |
| Seqs.RetainAppend | src-tauri/src/lib.rs:148 | retaining over a concatenation is the concatenation of the retained parts, so filtering never reorders |
| Seqs.RetainAll | src-tauri/src/lib.rs:148 | when every element is kept, retain returns the sequence unchanged |
| Store.LoadData | src-tauri/src/lib.rs:50-59 | a missing document loads as zero groups and zero servers; an existing one loads as stored |
| Store.AddGroup | src-tauri/src/lib.rs:101-110 | always succeeds; groups grow by one, the old groups form the prefix, the new last group is `{freshId, name}`, and servers are unchanged |
| Store.AddServer | src-tauri/src/lib.rs:112-130 | fails with "Group with id … not found" exactly when no group has the server's group id; otherwise the server is appended verbatim and groups are unchanged |
| Store.UpdateGroup | src-tauri/src/lib.rs:218-227 | fails with "Group not found" exactly when no group has the id; otherwise only the first group with that id is replaced, length and servers unchanged |
| Store.UpdateServer | src-tauri/src/lib.rs:229-238 | fails with "Server not found" exactly when no server has the id; otherwise only the first server with that id is replaced, length and groups unchanged |
| Store.DeleteGroup | src-tauri/src/lib.rs:132-162 | fails with "Group not found" exactly when the id is absent; otherwise removes the first group with the id and exactly the servers filed under it, keeping the others in order |
| Store.DeleteServer | src-tauri/src/lib.rs:164-185 | fails with "Server not found" exactly when the id is absent; otherwise removes exactly the first server with the id, groups unchanged |
| Records.HasGroup | src-tauri/src/lib.rs:121 | true exactly when some index holds a group with the given id (`groups.iter().any(…)`) |
| Records.HasServer | src-tauri/src/lib.rs:169 | true exactly when some index holds a server with the given id, which is when `position` finds one |
| Commands.Mutate | src-tauri/src/lib.rs:101-238 | the validate-and-mutate step of the six mutating commands; it fails exactly when add_server names a missing group, or an update/delete names a missing group or server id; add_group never fails |
| Commands.Execute | src-tauri/src/lib.rs:73-238 | queries never write and answer the stored lists (empty when no document exists); a mutation succeeds exactly when its `Mutate` step does, then saves exactly that dataset and replies with unit; a failing command leaves the stored document untouched |
| Properties.AddGroupPreservesIntact | src-tauri/src/lib.rs:101-110 | adding a group keeps every server's group reference valid |
| Properties.AddGroupFreshKeepsIdsUnique | src-tauri/src/lib.rs:104-108 | with a fresh id, group ids stay unique and the new group is the first (and only) one with that id |
| Properties.AddServerPreservesIntact | src-tauri/src/lib.rs:121-125 | a successful add_server keeps referential integrity |
| Properties.AddServerAcceptsDuplicateId | src-tauri/src/lib.rs:125 | a server whose id is already in use is still accepted, and the server ids are then no longer unique |
| Properties.UpdateGroupPreservesInvariants | src-tauri/src/lib.rs:221-222 | update_group leaves every group id in place, so integrity and unique group ids survive |
| Properties.UpdateServerIntactIff | src-tauri/src/lib.rs:230-234 | for a known server id, integrity survives update_server if and only if the new group id names an existing group |
| Properties.UpdateServerCanDangle | src-tauri/src/lib.rs:232-233 | a concrete intact dataset that update_server turns into one with a dangling group reference |
| Properties.DeleteGroupPreservesIntact | src-tauri/src/lib.rs:138-148 | the cascade keeps referential integrity |
| Properties.DeleteGroupRemovesId | src-tauri/src/lib.rs:138-148 | with unique group ids, the deleted id is gone from the groups and from every server's group reference, and group ids stay unique |
| Properties.DeleteEmptyGroupKeepsServers | src-tauri/src/lib.rs:147-148 | deleting a group that no server belongs to leaves the server list exactly as it was |
| Properties.CascadeExample | src-tauri/src/lib.rs:132-162 | groups {g1, g2} with servers s1→g1, s2→g1, s3→g2: deleting g1 leaves exactly {g2} and {s3} |
| Properties.DeleteServerPreservesIntact | src-tauri/src/lib.rs:169-170 | deleting a server keeps referential integrity |
| Properties.DeleteServerRemovesId | src-tauri/src/lib.rs:169-170 | with unique server ids, the deleted id is gone and server ids stay unique |
| Properties.CreateThenRenameKeepsId | src-tauri/src/lib.rs:218-227 | add_group with a fresh id followed by update_group on that id changes only the new group's name |
| Properties.ExecutePreservesIntact | src-tauri/src/lib.rs:73-238 | every command keeps the stored document referentially intact, except update_server with a group id that names no group |
| Properties.FirstRunQueriesCreateNothing | src-tauri/src/lib.rs:53-58 | with no document, get_groups and get_servers answer empty lists and create no document |
| Properties.FirstRunOnlyAddGroupSucceeds | src-tauri/src/lib.rs:53-58 | with no document, every mutation except add_group fails and nothing is written |
| Decimal.Show | src-tauri/src/lib.rs:189 | the port is printed as a non-empty digit string with no superfluous leading zero |
| Decimal.ParseShow | src-tauri/src/lib.rs:189 | reading the printed digits back gives the number |
| Decimal.ShowParse | src-tauri/src/lib.rs:189 | printing the value of any canonical digit string gives the same string |
| Login.LoginCommand | src-tauri/src/lib.rs:188-200 | fails with "Invalid authentication type" exactly when the type is neither "password" nor "key"; otherwise the command starts `ssh user@host -p <port>` and continues with ` -o PreferredAuthentications=password` or ` -i <auth_info>` |
| Login.PortReadBack | src-tauri/src/lib.rs:189 | the digits that follow `-p ` in the command read back as the server's port |
| Login.CommandDependsOnlyOnLogin | src-tauri/src/lib.rs:189-199 | the command depends only on user, host, port and auth type, plus the key path for key auth |
| Login.PortDistinguishes | src-tauri/src/lib.rs:189 | with the same user and host, two different ports give two different commands |

## Left out

- File I/O: the data-directory lookup, reading and writing `data.json`, and the I/O and JSON parse errors these raise. Storage is an `Option<Data>` input and an `Option<Data>` output.
- JSON serialisation: it is done by a library that is not part of this model, so no save/load round trip is stated.
- UUID generation in `add_group`: the fresh id is a parameter.
- The `osascript` process that opens a terminal in `connect_server`, and the Tauri registration in `run`: OS and framework plumbing.
- `println!` logging, and the `async` marker on the two delete commands. Neither affects the stored data.
- `export_data` and `import_data`: their bodies are empty.
- Concurrent read-modify-write races between commands: the code has no locking, and the model runs one command at a time.
- Non-atomic saves: `save_data` writes with `fs::write`, which truncates the file and rewrites it in place, so a crash mid-write can leave a partial document. The model treats a save as all-or-nothing (`Outcome(Some(d'), …)`), and a failed write is not modelled.
