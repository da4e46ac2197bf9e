# dropbox-clone: a verified model of the client core

dropbox-clone is a command-line client that mirrors a user's folder between the local disk and an
S3 bucket. The user signs in and moves around a virtual working directory. Commands create
folders (`mkdir`), list them (`ls`), change directory (`cd`), remove them (`rm`), push local
files to the bucket and pull cloud files down to the disk.

This project models that core in Dafny and proves properties of the model. The core is:

- the working directory;
- the S3 storage service and its synchronisation (push and pull);
- the command guards of the logged-in command line;
- the local file helpers;
- the password policy;
- the two in-memory services;
- the `User` record.

The disk is a map from name sequences to `Dir | File(mtime, content)`. The bucket is a map from
keys to objects. Listings are pages of at most 1000 keys in ascending key order. A continuation
token resumes after the last key of the previous page.

Modules, one per file:

| file | module | models |
|---|---|---|
| `wrappers.dfy` | `Wrappers` | `Option` and `Result` |
| `text.dfy` | `Text` | `String.split`, joining, `trim`, ASCII `toLowerCase`, `replace` |
| `keyorder.dfy` | `KeyOrder` | the key order (`String.compareTo`), sorting of a key set |
| `localpaths.dfy` | `LocalPaths` | `Paths.get`, `resolve`, `normalize`, `startsWith` |
| `localfs.dfy` | `LocalFs` | the disk and the `Files` operations the client calls |
| `cwd.dfy` | `WorkingDirectory` | `CurrentWorkingDirectory` |
| `password.dfy` | `PasswordPolicy` | `PasswordValidator` |
| `user.dfy` | `Accounts` | `User` |
| `simpleusers.dfy` | `InMemoryUsers` | `SimpleUserService` |
| `simplestorage.dfy` | `InMemoryStorage` | `SimpleStorageService` |
| `fileutils.dfy` | `LocalFiles` | `FileUtils` |
| `s3listing.dfy` | `S3Listing` | paged and delimited S3 listings, the key formulas |
| `s3sync.dfy` | `S3Sync` | what push and pull do, as functions of the disk and the bucket |
| `s3storage.dfy` | `CloudStorage` | `S3StorageService` |
| `runner.dfy` | `Cli` | the logged-in commands of `DropboxCliRunner` |

Classes whose fields the source updates in place stay classes in the model, with `modifies`
clauses:

- `CurrentWorkingDirectory`, `User`, `SimpleUserService`, `SimpleStorageService`;
- the runner, which holds the signed-in user, the token, the working directory and the root;
- the disk (`FileSystem`) and the bucket (`S3StorageService`).

The loops are methods with invariants:

- `getFullPath`, `changeDirectory`;
- the paging loops of `pullFromS3` and `deleteDirectory`;
- the walk of `pushToS3`;
- the children-first deletion of `rm` and `pullFromS3`.

Each of these is proved against a specification function. The properties of those functions are
proved as lemmas.

Some of the lemmas state behaviour of the code as written:

- `cd` checks an absolute argument without normalising it. For names `a` and `x`, `/a/../x`
  passes a check against the root `/a` although it denotes `/x` (`Cli.AbsoluteTargetEscapes`).
- `cd` then passes the argument itself, not the checked target, to `changeDirectory`. An
  absolute argument therefore appends all of its names to the working directory
  (`Cli.CdAbsoluteAppends`).
- `deleteDirectory` and `delete_account` delete by raw string prefix. No `/` is added.

## Model

Paths are relative to the repository root.

| member | source | states |
|---|---|---|
| WorkingDirectory.CurrentWorkingDirectory.constructor | src/main/java/io/github/lwcarani/model/CurrentWorkingDirectory.java:14-18 | a new working directory keeps the user id and name and has no segments |
| WorkingDirectory.CurrentWorkingDirectory.GetFullPath | src/main/java/io/github/lwcarani/model/CurrentWorkingDirectory.java:21-27 | the result is the user id followed by "/" and each segment in order; split on '/' it gives back the id and the segments |
| WorkingDirectory.CurrentWorkingDirectory.ChangeDirectory | src/main/java/io/github/lwcarani/model/CurrentWorkingDirectory.java:47-71 | the new segments are ChangeDir of the old ones; every segment stays non-empty, free of '/', and neither "." nor ".." |
| WorkingDirectory.Prompt | src/main/java/io/github/lwcarani/model/CurrentWorkingDirectory.java:30-44 | the prompt's name elements are those of the root, then "dropbox-clone", then the user name, then the segments; the prompt is absolute iff the cleaned root starts with a separator |
| WorkingDirectory.CleanRootNames | src/main/java/io/github/lwcarani/model/CurrentWorkingDirectory.java:32-34 | stripping one trailing '/' or '\' from the root does not change its name elements |
| WorkingDirectory.PromptTrailingSlash | src/test/java/io/github/lwcarani/DropboxCliRunnerTest.java:54-62 | with a root written with a trailing '/', the prompt's names are the root, dropbox-clone, the user and the segments |
| LocalPaths.NamesOfJoinElements | src/test/java/io/github/lwcarani/DropboxCliRunnerTest.java:54-62 | names joined with '/' or '\' parse back to the same names, so the expected prompt string has the same names |
| WorkingDirectory.FullPathSplit | src/main/java/io/github/lwcarani/model/CurrentWorkingDirectory.java:21-27 | the cloud prefix splits on '/' into the user id and the segments |
| WorkingDirectory.ChangeDirSpecial | src/main/java/io/github/lwcarani/model/CurrentWorkingDirectory.java:48-55 | "/" empties the list from any depth; ".." removes exactly the last segment and does nothing at the top |
| WorkingDirectory.ChangeDirAsWalk | src/main/java/io/github/lwcarani/model/CurrentWorkingDirectory.java:56-69 | any argument but "/" is the walk of all its '/'-separated pieces |
| WorkingDirectory.ChangeDirCompose | src/main/java/io/github/lwcarani/model/CurrentWorkingDirectory.java:51-69 | changing to x + "/" + y is changing to x and then to y |
| WorkingDirectory.ChangeDirSingle | src/main/java/io/github/lwcarani/model/CurrentWorkingDirectory.java:65-68 | a proper segment is appended |
| WorkingDirectory.EnterTwo | src/test/java/io/github/lwcarani/DropboxCliRunnerTest.java:76-112 | "a/b" appends a and b |
| WorkingDirectory.EnterThree | src/test/java/io/github/lwcarani/DropboxCliRunnerTest.java:76-112 | "a/b/c" appends a, b and c |
| WorkingDirectory.WalkKeepsSegments | src/main/java/io/github/lwcarani/model/CurrentWorkingDirectory.java:58-69 | walking '/'-free components keeps every segment proper |
| WorkingDirectory.WalkAppend | src/main/java/io/github/lwcarani/model/CurrentWorkingDirectory.java:59-69 | components are applied left to right |
| Accounts.User.constructor | src/main/java/io/github/lwcarani/model/User.java:13-17 | the three fields hold the arguments |
| Accounts.User.SetUsername | src/main/java/io/github/lwcarani/model/User.java:25-27 | sets the user name; e-mail and id unchanged |
| Accounts.User.SetEmail | src/main/java/io/github/lwcarani/model/User.java:35-37 | sets the e-mail; user name and id unchanged |
| Accounts.User.SetUserId | src/main/java/io/github/lwcarani/model/User.java:45-47 | sets the id; user name and e-mail unchanged |
| PasswordPolicy.ValidIffAllRules | src/main/java/io/github/lwcarani/util/PasswordValidator.java:7-47 | a password is valid iff it passes every rule: not blank, at least 8 characters, a digit, an upper-case and a lower-case letter, a special or white-space character, no space at either end |
| PasswordPolicy.FirstBroken | src/main/java/io/github/lwcarani/util/PasswordValidator.java:50-75 | the first rule a password breaks, in the fixed order; none iff every rule passes |
| PasswordPolicy.MessageNamesFirstBroken | src/main/java/io/github/lwcarani/util/PasswordValidator.java:50-75 | the message names the first broken rule, or says the password is valid |
| PasswordPolicy.ValidIffValidMessage | src/main/java/io/github/lwcarani/util/PasswordValidator.java:7-75 | isValid holds iff the message is "Password is valid." |
| PasswordPolicy.MessageIsNotValid | src/main/java/io/github/lwcarani/util/PasswordValidator.java:52-74 | no rule's message is the valid-password message |
| PasswordPolicy.ValidMeans | src/main/java/io/github/lwcarani/util/PasswordValidator.java:9-43 | a valid password has length >= 8, a digit, an upper-case and a lower-case letter, a special character, a non-blank character, and no space at either end |
| PasswordPolicy.TrimOfTrimmed | src/main/java/io/github/lwcarani/util/PasswordValidator.java:9-11 | an all-white-space password trims to the empty string |
| InMemoryUsers.SimpleUserService.constructor | src/main/java/io/github/lwcarani/service/SimpleUserService.java:14-18 | exactly johndoe and janedoe exist, with their passwords and e-mails; no sessions |
| InMemoryUsers.SimpleUserService.AuthenticateUser | src/main/java/io/github/lwcarani/service/SimpleUserService.java:21-29 | returns the account and records a session under its id iff the name exists and the password matches; otherwise both maps are unchanged |
| InMemoryUsers.SimpleUserService.CreateUser | src/main/java/io/github/lwcarani/service/SimpleUserService.java:41-48 | fails and changes nothing iff the name exists; otherwise adds exactly that account; sessions unchanged |
| InMemoryUsers.SimpleUserService.Logout | src/main/java/io/github/lwcarani/service/SimpleUserService.java:51-53 | removes only that id's session; the session check then fails; users unchanged |
| InMemoryUsers.SimpleUserService.DeleteUser | src/main/java/io/github/lwcarani/service/SimpleUserService.java:56-58 | removes every account with that id and no other; sessions unchanged |
| InMemoryStorage.SimpleStorageService.constructor | src/main/java/io/github/lwcarani/service/SimpleStorageService.java:11 | no user has storage |
| InMemoryStorage.SimpleStorageService.GetUserStorage | src/main/java/io/github/lwcarani/service/SimpleStorageService.java:42-44 | the first access creates an empty map for that user; no other user's map changes |
| InMemoryStorage.SimpleStorageService.CreateFolder | src/main/java/io/github/lwcarani/service/SimpleStorageService.java:14-17 | sets folder -> "folder" in the user's map only |
| InMemoryStorage.SimpleStorageService.UploadFile | src/main/java/io/github/lwcarani/service/SimpleStorageService.java:20-23 | sets remote path -> "file"; the local path is ignored |
| InMemoryStorage.SimpleStorageService.ListFiles | src/main/java/io/github/lwcarani/service/SimpleStorageService.java:26-28 | returns exactly the keys of the user's map; the path is ignored |
| InMemoryStorage.SimpleStorageService.DeleteFile | src/main/java/io/github/lwcarani/service/SimpleStorageService.java:31-34 | removes only that key from the user's map |
| InMemoryStorage.SimpleStorageService.DownloadFile | src/main/java/io/github/lwcarani/service/SimpleStorageService.java:37-40 | always returns no bytes and changes nothing |
| LocalFs.FileSystem.CreateDirectories | src/main/java/io/github/lwcarani/util/FileUtils.java:60 | creates every missing prefix and leaves a directory; fails without change when a prefix is a file |
| LocalFs.CreateDirsWellFormed | src/main/java/io/github/lwcarani/util/FileUtils.java:60 | adding the missing prefixes keeps the disk a tree and makes the target a directory |
| LocalFs.FileSystem.Delete | src/main/java/io/github/lwcarani/service/S3StorageService.java:164 | deletes an entry that exists, is not the root and has no children; otherwise fails without change |
| LocalFs.FileSystem.Write | src/main/java/io/github/lwcarani/util/FileUtils.java:90 | writes a file whose parent is a directory and which is not a directory; otherwise fails without change |
| LocalFs.FileSystem.CopyReplace | src/main/java/io/github/lwcarani/service/S3StorageService.java:188 | copies over anything but a non-empty directory, stamping the current time |
| LocalFs.FileSystem.SortedWalk | src/main/java/io/github/lwcarani/cli/DropboxCliRunner.java:356 | yields every entry of the subtree, in ascending path order |
| LocalFs.FileSystem.DeleteTree | src/main/java/io/github/lwcarani/cli/DropboxCliRunner.java:356-362 | deleting the walk in descending order removes the whole subtree (never the disk root) and nothing else |
| LocalFs.ChildSortsAfter | src/main/java/io/github/lwcarani/cli/DropboxCliRunner.java:356 | a child sorts after its parent, so a descending walk deletes it first |
| LocalFs.NoChildLeft | src/main/java/io/github/lwcarani/cli/DropboxCliRunner.java:356-358 | when an entry's turn comes in the descending walk, it has no children left, so the delete succeeds |
| LocalFs.DeletedAll | src/main/java/io/github/lwcarani/cli/DropboxCliRunner.java:356-362 | deleting every walked path removes exactly the subtree |
| LocalPaths.PathsGetNames | src/main/java/io/github/lwcarani/model/CurrentWorkingDirectory.java:37 | Paths.get of several parts has the name elements of each part, in order |
| LocalPaths.ParseRender | src/main/java/io/github/lwcarani/model/CurrentWorkingDirectory.java:37 | a path's string form parses back to the same path |
| LocalPaths.CanonicalOfValid | src/main/java/io/github/lwcarani/cli/DropboxCliRunner.java:319 | normalising proper names changes nothing |
| LocalPaths.NormNamesAppendValid | src/main/java/io/github/lwcarani/cli/DropboxCliRunner.java:319 | normalising a path that ends in proper names normalises only its head |
| KeyOrder.TakeSorted | src/main/java/io/github/lwcarani/cli/DropboxCliRunner.java:444-445 | takes the least `limit` strings of a set in ascending order; the rest is what remains |
| KeyOrder.SortedKeysFacts | src/main/java/io/github/lwcarani/cli/DropboxCliRunner.java:444-445 | the sorted sequence holds each element of the set once, strictly ascending |
| KeyOrder.StrLessTotal | src/main/java/io/github/lwcarani/cli/DropboxCliRunner.java:444 | two different names are ordered one way or the other |
| KeyOrder.StrLessTransitive | src/main/java/io/github/lwcarani/cli/DropboxCliRunner.java:444 | the name order is transitive |
| Text.SplitJoin | src/main/java/io/github/lwcarani/model/CurrentWorkingDirectory.java:43 | joining separator-free parts and splitting back gives the parts |
| LocalFiles.CreateLocalDirectory | src/main/java/io/github/lwcarani/util/FileUtils.java:55-68 | an existing path is left alone; otherwise missing directories are created; afterwards the path is a directory unless a file blocks it |
| LocalFiles.EnsureDirMakesDir | src/main/java/io/github/lwcarani/util/FileUtils.java:55-68 | creation keeps the disk a tree, leaves a directory when no file blocks it, and is idempotent |
| LocalFiles.CreateRootDirectory | src/main/java/io/github/lwcarani/util/FileUtils.java:71-83 | root/dropbox-clone becomes a directory unless blocked; an existing one is untouched |
| LocalFiles.CreateLocalFile | src/main/java/io/github/lwcarani/util/FileUtils.java:86-95 | creates the parents, then writes the file at root/dropbox-clone/relative |
| LocalFiles.WriteFileAtWrites | src/main/java/io/github/lwcarani/util/FileUtils.java:86-95 | with an unblocked parent and no directory in the way, the file holds exactly the content, overwriting any earlier file |
| LocalFiles.WriteFileAtWellFormed | src/main/java/io/github/lwcarani/util/FileUtils.java:86-95 | creating a file keeps the disk a tree |
| LocalFiles.Parent | src/main/java/io/github/lwcarani/util/FileUtils.java:89 | the parent of a path of name elements has name elements |
| LocalFiles.IsValidLocalDirectory | src/main/java/io/github/lwcarani/util/FileUtils.java:98-101 | true iff the path exists and is a directory |
| LocalFiles.IsValidLocalDirectoryPath | src/main/java/io/github/lwcarani/util/FileUtils.java:104-106 | true iff the path exists and is a directory |
| S3Listing.ListPage | src/main/java/io/github/lwcarani/service/S3StorageService.java:147-151 | a page holds the first up-to-max keys under the prefix after the token, in order; it is truncated iff more remain; the next token resumes exactly after it |
| S3Listing.DoneAfterPage | src/main/java/io/github/lwcarani/service/S3StorageService.java:195-196 | the keys processed after a truncated page are those before the next token |
| S3Listing.DoneAfterLastPage | src/main/java/io/github/lwcarani/service/S3StorageService.java:196 | after the last page every key under the prefix has been processed once |
| S3Listing.PendingWithoutDone | src/main/java/io/github/lwcarani/service/S3StorageService.java:219-225 | deleting the keys already listed does not change what the next page lists |
| S3Listing.ObjectNamesMembership | src/main/java/io/github/lwcarani/service/S3StorageService.java:76-78 | a listed object name is a non-empty, '/'-free remainder of a key after the prefix |
| S3Listing.CommonPrefixesMembership | src/main/java/io/github/lwcarani/service/S3StorageService.java:79 | the common prefixes are the rolled-up entries of the listing |
| S3Listing.ListEntrySource | src/main/java/io/github/lwcarani/service/S3StorageService.java:72-79 | every entry of a delimited listing is a key, or a prefix of one |
| S3Listing.ListEntryOfKey | src/main/java/io/github/lwcarani/service/S3StorageService.java:72-79 | every key under the prefix appears as itself or rolled up to its next '/' |
| S3Listing.UpToSlash | src/main/java/io/github/lwcarani/service/S3StorageService.java:72-73 | the roll-up ends at the first '/' |
| S3Sync.PushKeyNames | src/main/java/io/github/lwcarani/service/S3StorageService.java:99-100 | the key of a walked entry is "userId/" followed by its relative names |
| S3Sync.PushKeyInjective | src/main/java/io/github/lwcarani/service/S3StorageService.java:98-125 | two different walked entries never get the same key |
| S3Sync.PushedMeans | src/main/java/io/github/lwcarani/service/S3StorageService.java:98-126 | a key is put iff it is the key of a walked file, or of a directory other than the local root, and its put did not fail; files carry their content and directories an empty object |
| S3Sync.PushedStep | src/main/java/io/github/lwcarani/service/S3StorageService.java:98-126 | one more walked entry adds exactly its own put |
| S3Sync.PushPullRoundTrip | src/main/java/io/github/lwcarani/service/S3StorageService.java:100 | stripping "userId/" from a pushed key and resolving it under the local root gives back the pushed entry |
| S3Sync.PullKeepsUpToDate | src/main/java/io/github/lwcarani/service/S3StorageService.java:184-192 | a local file of the same size and time is left untouched |
| S3Sync.PullCopiesChanged | src/main/java/io/github/lwcarani/service/S3StorageService.java:180-189 | a missing or different local file is replaced by the object's content, stamped now |
| S3Sync.PullDirEmpty | src/main/java/io/github/lwcarani/service/S3StorageService.java:157-172 | a directory key leaves an empty directory |
| S3Sync.PullDirBlocked | src/main/java/io/github/lwcarani/service/S3StorageService.java:171-176 | the directory is missing afterwards only when a file lies above it |
| S3Sync.PullDirKeepsOthers | src/main/java/io/github/lwcarani/service/S3StorageService.java:161-171 | recreating a directory touches nothing outside it |
| S3Sync.PullRunAborted | src/main/java/io/github/lwcarani/service/S3StorageService.java:197-200 | once a key aborts the pull, later keys change nothing |
| S3Sync.PullRunSnoc | src/main/java/io/github/lwcarani/service/S3StorageService.java:150-196 | keys are applied one at a time, in listing order |
| CloudStorage.S3StorageService.constructor | src/main/java/io/github/lwcarani/service/S3StorageService.java:39-42 | the service starts over the given bucket |
| CloudStorage.S3StorageService.CreateFolder | src/main/java/io/github/lwcarani/service/S3StorageService.java:46-66 | puts an empty object at fullPath/folder/ unless a key already starts with it; afterwards one does |
| CloudStorage.S3StorageService.ListFiles | src/main/java/io/github/lwcarani/service/S3StorageService.java:70-85 | every listed name is a direct object name or a common prefix under fullPath[/path]; when the level fits one page, every key there is listed |
| CloudStorage.S3StorageService.IsValidS3Directory | src/main/java/io/github/lwcarani/service/S3StorageService.java:205-211 | true iff some key starts with the path |
| CloudStorage.UnderNonEmpty | src/main/java/io/github/lwcarani/service/S3StorageService.java:209-210 | a one-key listing is non-empty iff some key starts with the prefix |
| CloudStorage.S3StorageService.DeleteDirectory | src/main/java/io/github/lwcarani/service/S3StorageService.java:215-227 | deletes exactly the keys with the raw string prefix, page by page |
| CloudStorage.DeletePageDone | src/main/java/io/github/lwcarani/service/S3StorageService.java:219-225 | after a truncated page the deleted keys grow by the page and fewer keys remain under the prefix; after the last page every key under it has been listed |
| CloudStorage.S3StorageService.UploadFile | src/main/java/io/github/lwcarani/service/S3StorageService.java:231-242 | puts the local file's content under fullPath/remotePath |
| CloudStorage.S3StorageService.DeleteFile | src/main/java/io/github/lwcarani/service/S3StorageService.java:246-256 | removes only userId/filePath |
| CloudStorage.S3StorageService.DownloadFile | src/main/java/io/github/lwcarani/service/S3StorageService.java:260-285 | returns the content of userId/filePath, or no bytes when it is missing |
| CloudStorage.S3StorageService.PushToS3 | src/main/java/io/github/lwcarani/service/S3StorageService.java:89-131 | the bucket gains exactly the puts of the walk of root/dropbox-clone/username; nothing when that folder is missing |
| CloudStorage.S3StorageService.PushWalk | src/main/java/io/github/lwcarani/service/S3StorageService.java:98-126 | walking every entry puts exactly the pushed objects |
| CloudStorage.S3StorageService.PushEntry | src/main/java/io/github/lwcarani/service/S3StorageService.java:99-125 | one walked entry is put under its key, unless its put fails |
| CloudStorage.S3StorageService.PullFromS3 | src/main/java/io/github/lwcarani/service/S3StorageService.java:135-201 | the disk becomes the run of every key under "userId/", in listing order, stopping at the first failing key |
| CloudStorage.S3StorageService.PullPage | src/main/java/io/github/lwcarani/service/S3StorageService.java:152-194 | one page of keys is applied in order, stopping at an abort |
| CloudStorage.S3StorageService.PullKey | src/main/java/io/github/lwcarani/service/S3StorageService.java:153-193 | one key recreates its directory or copies its file |
| Cli.SplitCommandWord | src/main/java/io/github/lwcarani/cli/DropboxCliRunner.java:142-144 | a line without white space is a lower-cased command with an empty argument |
| Cli.SplitCommandWords | src/main/java/io/github/lwcarani/cli/DropboxCliRunner.java:142-144 | the text before the first run of white space is the lower-cased command and the rest, trimmed, the argument |
| Cli.FirstSpace | src/main/java/io/github/lwcarani/cli/DropboxCliRunner.java:142 | the first white-space character, with none before it |
| Cli.ConfirmedMeans | src/main/java/io/github/lwcarani/cli/DropboxCliRunner.java:342-344 | only "y" or "Y", trimmed, confirms |
| Cli.Target | src/main/java/io/github/lwcarani/cli/DropboxCliRunner.java:312-323 | an absolute argument is kept as given; a relative one is resolved and normalised; a NUL makes it no path |
| Cli.RelativeTargetInside | src/main/java/io/github/lwcarani/cli/DropboxCliRunner.java:312-330 | for a relative argument and an absolute current directory, passing the check puts the denoted location under the root |
| Cli.AbsoluteTargetEscapes | src/main/java/io/github/lwcarani/cli/DropboxCliRunner.java:313-330 | an absolute argument passes the check unnormalised: for distinct names a and x, /a/../x passes for root /a yet denotes /x, outside it |
| Cli.CdAbsoluteAppends | src/main/java/io/github/lwcarani/cli/DropboxCliRunner.java:476-501 | from the top of the folder, with root /a and a directory /a/b, cd /a/b appends both names a and b |
| Cli.MkdirThenCd | src/main/java/io/github/lwcarani/cli/DropboxCliRunner.java:290-298 | from an absolute current directory under the root, after mkdir of a proper name, cd to that name enters it |
| Cli.ChildrenMeans | src/main/java/io/github/lwcarani/cli/DropboxCliRunner.java:438-445 | a name is listed iff an entry of that name lies directly inside |
| Cli.PromptTargetInside | src/main/java/io/github/lwcarani/cli/DropboxCliRunner.java:312-330 | with a root starting with a separator, a relative argument that passes the check from the session's prompt denotes a location under the root |
| Cli.PromptMkdirThenCd | src/main/java/io/github/lwcarani/cli/DropboxCliRunner.java:290-298 | with a root starting with a separator, mkdir of a proper name from the session's prompt and then cd to it enters it |
| Cli.ReadCommandLowers | src/main/java/io/github/lwcarani/cli/DropboxCliRunner.java:68 | the line read is trimmed and lower-cased before the split, so the argument holds no upper-case letter: it is the lower-cased argument of the trimmed line |
| Cli.SplitCommandLower | src/main/java/io/github/lwcarani/cli/DropboxCliRunner.java:138-144 | lower-casing the line before the split gives the same command and the lower-cased argument |
| Cli.OpOf | src/main/java/io/github/lwcarani/cli/DropboxCliRunner.java:146-182 | a name selects no case iff it is not one of the recognised commands |
| Cli.Runner.constructor | src/main/java/io/github/lwcarani/cli/DropboxCliRunner.java:48-55 | nobody is signed in |
| Cli.Runner.Cd | src/main/java/io/github/lwcarani/cli/DropboxCliRunner.java:454-502 | an empty argument changes nothing; "/" and ".." go straight to changeDirectory; otherwise the directory changes only if the check passes and the target is a local directory |
| Cli.Runner.CdAt | src/main/java/io/github/lwcarani/cli/DropboxCliRunner.java:455-501 | the same, once the current local directory is known; the working directory stays well formed |
| Cli.Runner.Ls | src/main/java/io/github/lwcarani/cli/DropboxCliRunner.java:402-451 | a bad path, an escaping target or a missing directory each give their own outcome; otherwise the names inside, sorted; nothing changes |
| Cli.Runner.Rm | src/main/java/io/github/lwcarani/cli/DropboxCliRunner.java:301-373 | nothing is deleted unless the check passes, either side exists and the reply is "y"; then each side is deleted only if it exists, the local subtree children first |
| Cli.Runner.RmAt | src/main/java/io/github/lwcarani/cli/DropboxCliRunner.java:312-369 | the same, once the cloud path and the local directory are known |
| Cli.Runner.Mkdir | src/main/java/io/github/lwcarani/cli/DropboxCliRunner.java:290-298 | an empty name changes nothing; otherwise the folder object and the local folder are created |
| Cli.Runner.MkdirAt | src/main/java/io/github/lwcarani/cli/DropboxCliRunner.java:296-297 | the same, once the cloud and local directories are known |
| Cli.Runner.Push | src/main/java/io/github/lwcarani/cli/DropboxCliRunner.java:376-386 | pushes on "y", and changes nothing otherwise |
| Cli.Runner.Pull | src/main/java/io/github/lwcarani/cli/DropboxCliRunner.java:389-399 | pulls on "y", and changes nothing otherwise |
| Cli.Runner.DeleteAccount | src/main/java/io/github/lwcarani/cli/DropboxCliRunner.java:560-586 | on "y", deletes every key starting with the user id and the account, and clears all four session fields; otherwise nothing changes |
| Cli.Runner.Logout | src/main/java/io/github/lwcarani/cli/DropboxCliRunner.java:232-244 | with a user signed in, ends the token's session and clears all four fields; with none, nothing changes |
| Cli.Runner.HandleLoggedInCommands | src/main/java/io/github/lwcarani/cli/DropboxCliRunner.java:133-183 | an expired session clears user, token and working directory, keeps the root and runs nothing; an unknown command changes nothing; exit stops the loop |
| Cli.Runner.Dispatch | src/main/java/io/github/lwcarani/cli/DropboxCliRunner.java:146-182 | an unrecognised command changes nothing; exit stops the loop and, the first time, signs the user out |
| Cli.Runner.LoggedInLine | src/main/java/io/github/lwcarani/cli/DropboxCliRunner.java:67-74 | one turn of the loop for a signed-in user: an expired session signs out, an unknown command changes nothing, exit stops the loop |
| Cli.Runner.ChangeRoot | src/main/java/io/github/lwcarani/cli/DropboxCliRunner.java:247-266 | an empty argument or one that is not an existing directory changes nothing; otherwise the root becomes the argument and root/dropbox-clone exists as a directory afterwards |
| Cli.Runner.Shutdown | src/main/java/io/github/lwcarani/cli/DropboxCliRunner.java:86-99 | the loop stops; the first call signs out a signed-in user; a repeated call changes nothing else |

## Left out

- Console output, logging and messages are not modelled. Where the source only logs a failure,
  the model states what the disk or the bucket holds afterwards.
- The interactive loop (`run`), `login`, `signup`, `printHelp` and the shutdown hook are not
  part of this model. They read the console and the password, and they run threads. One turn of
  the loop for a signed-in user is modelled (`LoggedInLine`).
- `help` reaches the command switch but changes nothing in the model. `change_root` does not
  persist the root preference, and `exit` does not close the scanner or the Spring context.
- `getRootString` is called but not defined in the source shown. The root the containment check
  compares with is a parameter.
- The runner works with the in-memory account service, because the Cognito service is a network
  client. The token is passed to `authenticateUserSession`, `logout` and `deleteUser` as the
  source passes it.
- The runner's `delete_account` does not model a `RuntimeException` from the bucket or the
  account service. The model never fails there.
- `FileUtils.selectRootDirectory` and its GUI and console variants are not part of this model.
- Random UUIDs, the clock, the confirmation reply and which puts fail are parameters.
- Paths are lexical, with '/' and '\' as separators, and a path is absolute when it starts with a
  separator. Windows drive letters, symbolic links and physical resolution of ".." are not
  modelled. A relative path is taken from the disk root.
- A NUL character in the root directory or the user name is not modelled. `Paths.get` would throw
  outside the `try` blocks.
- File sizes are the lengths of the contents. Times are integers compared for equality. A
  directory never matches an object, so pulling a file key onto a directory always tries the copy.
- Service-side failures of `createFolder`, `uploadFile`, `deleteFile` and the listing calls are not
  modelled; those calls always succeed.
- CloudStorage.S3StorageService.PushToS3: only a service error (`AmazonS3Exception`) on a put is
  modelled, through the set of failing keys, and the walk goes on after it. A client-side
  `SdkClientException` from `putObject` or an `UncheckedIOException` from the walk would abort the
  push after some puts and escape the command; the model always finishes the walk.
- CloudStorage.S3StorageService.PullFromS3: a failing `getObject`, and an I/O failure other than a
  missing parent or a blocked copy, do not end the pull. Those two are the exceptions the disk model can raise.
- LocalFiles.CreateLocalFile: a path with no parent (`getParent()` null) would throw a
  NullPointerException. The model leaves the disk unchanged.
- `SimpleUserService` calls a four-argument `User` constructor, `getPassword` and `getId`, and
  `User` declares none of them. The model gives that service its own account record with an id,
  a name, an e-mail and a password.
- Unicode case folding is not modelled. Lower-casing is ASCII only, and the key order compares
  code points.
