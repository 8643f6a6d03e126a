/** The seven leftover detectors (`detect_*_orphans`). Each walks one
    Library folder and reports the entries that no installed application
    claims. They share one shape: an entry is considered only if it has the
    right kind (folder or property-list file), is not on the category's skip
    list, is not owned by any installed identifier under the category's
    ownership test, and is large enough. The shape is written once here
    and parameterized by the category. Folder sizes come from a total size
    oracle (the `du` measurement never fails: it falls back to zero), so a
    folder listing is given with its sizes. Reading the size of a
    property-list file can fail; the failure escapes to the `try` around
    the whole walk, which ends the walk and keeps what was collected. */
module Detectors {
  import opened Text
  import opened Naming
  import opened Collections

  datatype Confidence = High | Medium | Low

  datatype Category =
    | Containers | GroupContainers | Preferences | AppSupport | LaunchAgents | Caches | Logs

  /** One detected leftover (`LeftoverItem`); the human-readable size is left out. */
  datatype LeftoverItem = LeftoverItem(
    id: string,
    path: string,
    name: string,
    bundleId: string,
    detectionSource: string,
    category: string,
    confidence: Confidence,
    hint: string,
    size: nat,
    selected: bool)

  /** A directory entry with the size the measurement reports for it. */
  datatype Folder = Folder(name: string, path: string, isDir: bool, size: nat)

  /** A `*.plist` entry: its stem, and its size or None when `stat` fails. */
  datatype PlistFile = PlistFile(stem: string, path: string, isFile: bool, size: Option<nat>)

  function Label(c: Category): string {
    match c
    case Containers => "Containers"
    case GroupContainers => "Group Containers"
    case Preferences => "Preferences"
    case AppSupport => "Application Support"
    case LaunchAgents => "Launch Agents"
    case Caches => "Caches"
    case Logs => "Logs"
  }

  /** The prefix of every item id of the category. */
  function IdPrefix(c: Category): string {
    match c
    case Containers => "container_"
    case GroupContainers => "group_container_"
    case Preferences => "pref_"
    case AppSupport => "appsupport_"
    case LaunchAgents => "launchagent_"
    case Caches => "cache_"
    case Logs => "logs_"
  }

  function Source(c: Category): string {
    match c
    case Containers => "container_scan"
    case GroupContainers => "group_container_scan"
    case Preferences => "preferences_scan"
    case AppSupport => "app_support_scan"
    case LaunchAgents => "launch_agent_scan"
    case Caches => "cache_scan"
    case Logs => "logs_scan"
  }

  function ConfidenceOf(c: Category): Confidence {
    match c
    case Containers | GroupContainers | LaunchAgents => High
    case Preferences | AppSupport | Caches => Medium
    case Logs => Low
  }

  /** Application Support and Logs show the folder name as it is and a
      wildcard bundle id; the others infer a display name. */
  predicate ShowsFolderName(c: Category) {
    c == AppSupport || c == Logs
  }

  function SkipList(c: Category): seq<string> {
    match c
    case Containers | GroupContainers => []
    case Preferences =>
      ["com.apple.", "org.python.", "com.github.", "loginwindow",
       "pbs", "systemsoundserverd", "ContextStoreAgent", "NSGlobalDomain"]
    case AppSupport =>
      ["AddressBook", "AppStore", "CallHistoryDB", "CloudDocs",
       "CrashReporter", "Dock", "FileProvider", "iCloud", "icdd",
       "Knowledge", "MobileSync", "NotificationCenter", "Quick Look",
       "Spotlight", "com.apple.", "Apple", "SyncServices", "CoreData"]
    case LaunchAgents => ["com.apple.", "com.openssh", "bootcamp", "org.gpgtools"]
    case Caches =>
      ["com.apple.", "CloudKit", "GeoServices", "PassKit",
       "com.crashlytics", "google", "org.swift"]
    case Logs => ["DiagnosticReports", "com.apple.", "CoreSimulator", "Homebrew"]
  }

  /** The lower-cased name starts with (or, for folder skip lists, equals)
      a lower-cased skip entry. */
  predicate Skipped(c: Category, lname: string) {
    exists i :: 0 <= i < |SkipList(c)| &&
      (IsPrefix(Lower(SkipList(c)[i]), lname) || (ShowsFolderName(c) && lname == Lower(SkipList(c)[i])))
  }

  /** The part of a group container name after the team identifier, lower-cased. */
  function GroupSuffix(name: string): (r: string)
    ensures IsLowerCase(r)
  {
    match SplitOnce(name, '.')
    case None => Lower(name)
    case Some(rest) => Lower(rest)
  }

  /** Some dot-separated token of the identifier equals the name. */
  predicate TokenMatch(id: string, lname: string) {
    exists k :: 0 <= k < |Split(id, '.')| && Lower(Split(id, '.')[k]) == lname
  }

  /** The ownership test of one installed identifier against an entry
      name, exactly as each detector writes it. */
  predicate OwnedBy(c: Category, id: string, name: string) {
    var lname := Lower(name);
    match c
    case Containers => lname == id
    case GroupContainers => Contains(lname, id) || Contains(id, GroupSuffix(name))
    case Preferences => lname == id || IsPrefix(id, lname) || Contains(lname, id)
    case AppSupport | Logs => Contains(id, lname) || Contains(lname, id) || TokenMatch(id, lname)
    case LaunchAgents | Caches => lname == id || Contains(lname, id) || Contains(id, lname)
  }

  predicate Owned(c: Category, installed: set<string>, name: string) {
    exists id :: id in installed && OwnedBy(c, id, name)
  }

  predicate LargeEnough(c: Category, size: nat) {
    match c
    case Containers | GroupContainers | Preferences => size > 0
    case LaunchAgents => true
    case AppSupport | Logs => size > 1024
    case Caches => size > 10240
  }

  function Hint(c: Category, shown: string): string {
    match c
    case Containers => "Sandboxed data container for '" + shown + "'. This app appears to be uninstalled."
    case GroupContainers => "Shared data container for '" + shown + "'. No matching app found."
    case Preferences => "Preference file for '" + shown + "'. No matching app installed."
    case AppSupport => "Application Support folder for '" + shown + "'. No matching app installed."
    case LaunchAgents => "Background agent for '" + shown + "'. The associated app is not installed."
    case Caches => "Cache folder for '" + shown + "'. No matching app installed."
    case Logs => "Log folder for '" + shown + "'. No matching app installed. Low confidence - verify before removing."
  }

  /** The item a detector reports for an entry named `name`. Low-confidence
      items are the only ones not preselected for removal. */
  function ItemFor(c: Category, name: string, path: string, size: nat): (it: LeftoverItem)
    ensures it.category == Label(c) && it.path == path && it.size == size
    ensures it.confidence == ConfidenceOf(c)
    ensures it.selected <==> it.confidence != Low
    ensures |it.id| == |IdPrefix(c)| + |name|
    ensures it.id[..|IdPrefix(c)|] == IdPrefix(c) && it.id[|IdPrefix(c)|..] == name
    ensures ShowsFolderName(c) ==> it.name == name && it.bundleId == "*." + name
    ensures !ShowsFolderName(c) ==> it.name == InferAppName(name) && it.bundleId == name
  {
    var shown := if ShowsFolderName(c) then name else InferAppName(name);
    LeftoverItem(
      IdPrefix(c) + name, path, shown,
      if ShowsFolderName(c) then "*." + name else name,
      Source(c), Label(c), ConfidenceOf(c), Hint(c, shown), size, c != Logs)
  }

  /** A folder entry the folder detector of category c reports. */
  predicate FolderEmits(c: Category, installed: set<string>, f: Folder) {
    f.isDir && !Skipped(c, Lower(f.name)) && !Owned(c, installed, f.name) && LargeEnough(c, f.size)
  }

  function FolderItem(c: Category, f: Folder): LeftoverItem {
    ItemFor(c, f.name, f.path, f.size)
  }

  /** The generic folder walk, in listing order. */
  function ScanFolders(c: Category, installed: set<string>, listing: seq<Folder>): (r: seq<LeftoverItem>)
    ensures |r| <= |listing|
    decreases |listing|
  {
    if |listing| == 0 then [] else Emitted(c, installed, listing[0]) + ScanFolders(c, installed, listing[1..])
  }

  /** What one folder entry contributes to the walk. */
  function Emitted(c: Category, installed: set<string>, f: Folder): (r: seq<LeftoverItem>)
    ensures |r| <= 1
  {
    if FolderEmits(c, installed, f) then [FolderItem(c, f)] else []
  }

  /** The walk reports exactly the items of the entries the rule admits. */
  lemma {:induction false} ScanFoldersMembers(c: Category, installed: set<string>, listing: seq<Folder>)
    ensures forall it :: it in ScanFolders(c, installed, listing) <==>
              exists f :: f in listing && FolderEmits(c, installed, f) && it == FolderItem(c, f)
    decreases |listing|
  {
    if |listing| > 0 {
      ScanFoldersMembers(c, installed, listing[1..]);
      assert forall f :: f in listing <==> f == listing[0] || f in listing[1..];
    }
  }

  /** Every item of a folder walk carries its category's label and
      confidence, and is preselected unless that confidence is low. */
  lemma ScanFoldersLabels(c: Category, installed: set<string>, listing: seq<Folder>)
    ensures forall it :: it in ScanFolders(c, installed, listing) ==>
              it.category == Label(c) && it.confidence == ConfidenceOf(c) && (it.selected <==> ConfidenceOf(c) != Low)
  {
    ScanFoldersMembers(c, installed, listing);
  }

  /** The walk keeps listing order: scanning two listings back to back is
      scanning their concatenation. */
  lemma {:induction false} ScanFoldersAppend(c: Category, installed: set<string>, a: seq<Folder>, b: seq<Folder>)
    ensures ScanFolders(c, installed, a + b) == ScanFolders(c, installed, a) + ScanFolders(c, installed, b)
    decreases |a|
  {
    if |a| == 0 {
      assert a + b == b;
    } else {
      var head := Emitted(c, installed, a[0]);
      assert (a + b)[0] == a[0] && (a + b)[1..] == a[1..] + b;
      ScanFoldersAppend(c, installed, a[1..], b);
      assert ScanFolders(c, installed, a + b) == head + ScanFolders(c, installed, a[1..] + b);
      assert ScanFolders(c, installed, a) == head + ScanFolders(c, installed, a[1..]);
      AppendAssoc(head, ScanFolders(c, installed, a[1..]), ScanFolders(c, installed, b));
    }
  }

  /** A property-list file that reaches the `stat` call. */
  predicate PlistConsidered(c: Category, installed: set<string>, p: PlistFile) {
    p.isFile && !Skipped(c, Lower(p.stem)) && !Owned(c, installed, p.stem)
  }

  predicate PlistEmits(c: Category, installed: set<string>, p: PlistFile) {
    PlistConsidered(c, installed, p) && p.size.Some? && LargeEnough(c, p.size.value)
  }

  function PlistItem(c: Category, p: PlistFile): LeftoverItem
    requires p.size.Some?
  {
    ItemFor(c, p.stem, p.path, p.size.value)
  }

  /** The files the walk gets through: everything before the first
      considered file whose size cannot be read. */
  function UntilAbort(c: Category, installed: set<string>, listing: seq<PlistFile>): (r: seq<PlistFile>)
    ensures |r| <= |listing| && r == listing[..|r|]
    ensures forall p :: p in r ==> !(PlistConsidered(c, installed, p) && p.size.None?)
    ensures |r| < |listing| ==> PlistConsidered(c, installed, listing[|r|]) && listing[|r|].size.None?
    decreases |listing|
  {
    if |listing| == 0 then []
    else if PlistConsidered(c, installed, listing[0]) && listing[0].size.None? then []
    else [listing[0]] + UntilAbort(c, installed, listing[1..])
  }

  /** The generic property-list walk. */
  function ScanPlists(c: Category, installed: set<string>, listing: seq<PlistFile>): (r: seq<LeftoverItem>)
    ensures |r| <= |listing|
    decreases |listing|
  {
    if |listing| == 0 then []
    else
      var p := listing[0];
      if PlistConsidered(c, installed, p) && p.size.None? then []
      else (if PlistEmits(c, installed, p) then [PlistItem(c, p)] else []) + ScanPlists(c, installed, listing[1..])
  }

  /** The walk reports exactly the items of the files it gets through that
      the rule admits. */
  lemma {:induction false} ScanPlistsMembers(c: Category, installed: set<string>, listing: seq<PlistFile>)
    ensures forall it :: it in ScanPlists(c, installed, listing) <==>
              exists p :: p in UntilAbort(c, installed, listing) && PlistEmits(c, installed, p) && it == PlistItem(c, p)
    decreases |listing|
  {
    if |listing| > 0 {
      var p := listing[0];
      if !(PlistConsidered(c, installed, p) && p.size.None?) {
        ScanPlistsMembers(c, installed, listing[1..]);
        var walked := UntilAbort(c, installed, listing);
        assert walked == [p] + UntilAbort(c, installed, listing[1..]);
        assert forall q :: q in walked <==> q == p || q in UntilAbort(c, installed, listing[1..]);
      }
    }
  }

  /** Every item of a property-list walk carries its category's label and
      confidence, and is preselected unless that confidence is low. */
  lemma ScanPlistsLabels(c: Category, installed: set<string>, listing: seq<PlistFile>)
    ensures forall it :: it in ScanPlists(c, installed, listing) ==>
              it.category == Label(c) && it.confidence == ConfidenceOf(c) && (it.selected <==> ConfidenceOf(c) != Low)
  {
    ScanPlistsMembers(c, installed, listing);
  }

  // ---------------------------------------------------------------------
  // The seven detectors, each with its rule written out in its own terms.

  /** `detect_container_orphans`: a non-empty container whose lower-cased
      name is not an installed identifier. */
  function DetectContainerOrphans(installed: set<string>, listing: seq<Folder>): (r: seq<LeftoverItem>)
    ensures forall it :: it in r <==>
              exists f :: f in listing && f.isDir && Lower(f.name) !in installed && f.size > 0 &&
                it == FolderItem(Containers, f)
    ensures forall it :: it in r ==> it.confidence == High && it.selected && it.category == "Containers"
  {
    ScanFoldersMembers(Containers, installed, listing);
    ScanFoldersLabels(Containers, installed, listing);
    ScanFolders(Containers, installed, listing)
  }

  /** `detect_group_container_orphans`: no installed identifier occurs in
      the name, and the part after the team identifier occurs in none. */
  function DetectGroupContainerOrphans(installed: set<string>, listing: seq<Folder>): (r: seq<LeftoverItem>)
    ensures forall it :: it in r <==>
              exists f :: f in listing && f.isDir && f.size > 0 &&
                (forall id :: id in installed ==> !Contains(Lower(f.name), id) && !Contains(id, GroupSuffix(f.name))) &&
                it == FolderItem(GroupContainers, f)
    ensures forall it :: it in r ==> it.confidence == High && it.selected && it.category == "Group Containers"
  {
    GroupRuleMembers(installed, listing);
    ScanFoldersLabels(GroupContainers, installed, listing);
    ScanFolders(GroupContainers, installed, listing)
  }

  /** The group container walk, with the rule written out. */
  lemma GroupRuleMembers(installed: set<string>, listing: seq<Folder>)
    ensures forall it :: it in ScanFolders(GroupContainers, installed, listing) <==>
              exists f :: f in listing && f.isDir && f.size > 0 &&
                (forall id :: id in installed ==> !Contains(Lower(f.name), id) && !Contains(id, GroupSuffix(f.name))) &&
                it == FolderItem(GroupContainers, f)
  {
    ScanFoldersMembers(GroupContainers, installed, listing);
    forall f | f in listing
      ensures FolderEmits(GroupContainers, installed, f) <==>
                f.isDir && f.size > 0 &&
                (forall id :: id in installed ==> !Contains(Lower(f.name), id) && !Contains(id, GroupSuffix(f.name)))
    {
      GroupRuleEmits(installed, f);
    }
  }

  lemma GroupRuleEmits(installed: set<string>, f: Folder)
    ensures FolderEmits(GroupContainers, installed, f) <==>
              f.isDir && f.size > 0 &&
              (forall id :: id in installed ==> !Contains(Lower(f.name), id) && !Contains(id, GroupSuffix(f.name)))
  {
    assert !Skipped(GroupContainers, Lower(f.name));
  }

  /** `detect_preference_orphans`. The equality and prefix tests of the
      source are special cases of containment, so a file is kept exactly
      when no installed identifier occurs in its lower-cased stem. */
  function DetectPreferenceOrphans(installed: set<string>, listing: seq<PlistFile>): (r: seq<LeftoverItem>)
    ensures forall it :: it in r <==>
              exists p :: p in UntilAbort(Preferences, installed, listing) && p.isFile &&
                !Skipped(Preferences, Lower(p.stem)) &&
                (forall id :: id in installed ==> !Contains(Lower(p.stem), id)) &&
                p.size.Some? && p.size.value > 0 && it == PlistItem(Preferences, p)
    ensures forall it :: it in r ==> it.confidence == Medium && it.selected && it.category == "Preferences"
  {
    ScanPlistsMembers(Preferences, installed, listing);
    ScanPlistsLabels(Preferences, installed, listing);
    forall p | p in UntilAbort(Preferences, installed, listing)
      ensures Owned(Preferences, installed, p.stem) <==> exists id :: id in installed && Contains(Lower(p.stem), id)
    {
      PreferencesOwnedIff(installed, p.stem);
    }
    ScanPlists(Preferences, installed, listing)
  }

  /** `detect_app_support_orphans`: a folder over 1 KiB that no identifier
      contains, that contains no identifier, and that is no dot-separated
      token of an identifier. */
  function DetectAppSupportOrphans(installed: set<string>, listing: seq<Folder>): (r: seq<LeftoverItem>)
    ensures forall it :: it in r <==>
              exists f :: f in listing && f.isDir && !Skipped(AppSupport, Lower(f.name)) && f.size > 1024 &&
                (forall id :: id in installed ==>
                   !Contains(id, Lower(f.name)) && !Contains(Lower(f.name), id) && !TokenMatch(id, Lower(f.name))) &&
                it == FolderItem(AppSupport, f)
    ensures forall it :: it in r ==>
              it.confidence == Medium && it.selected && it.category == "Application Support"
  {
    TokenRuleMembers(AppSupport, installed, listing);
    ScanFoldersLabels(AppSupport, installed, listing);
    ScanFolders(AppSupport, installed, listing)
  }

  /** `detect_launch_agent_orphans`: the user folder, then the system folder,
      each walked under its own `try`, so a failure in one leaves the
      other's results. Neither equality nor size is a condition. */
  function DetectLaunchAgentOrphans(installed: set<string>, user: seq<PlistFile>, system: seq<PlistFile>): (r: seq<LeftoverItem>)
    ensures forall it :: it in r <==>
              exists p :: (p in UntilAbort(LaunchAgents, installed, user) || p in UntilAbort(LaunchAgents, installed, system)) &&
                p.isFile && !Skipped(LaunchAgents, Lower(p.stem)) &&
                (forall id :: id in installed ==> !Contains(Lower(p.stem), id) && !Contains(id, Lower(p.stem))) &&
                p.size.Some? && it == PlistItem(LaunchAgents, p)
    ensures forall it :: it in r ==> it.confidence == High && it.selected && it.category == "Launch Agents"
  {
    LaunchAgentFolderMembers(installed, user);
    LaunchAgentFolderMembers(installed, system);
    ScanPlistsLabels(LaunchAgents, installed, user);
    ScanPlistsLabels(LaunchAgents, installed, system);
    ScanPlists(LaunchAgents, installed, user) + ScanPlists(LaunchAgents, installed, system)
  }

  /** One launch-agent folder's walk, with the ownership test simplified. */
  lemma LaunchAgentFolderMembers(installed: set<string>, listing: seq<PlistFile>)
    ensures forall it :: it in ScanPlists(LaunchAgents, installed, listing) <==>
              exists p :: p in UntilAbort(LaunchAgents, installed, listing) &&
                p.isFile && !Skipped(LaunchAgents, Lower(p.stem)) &&
                (forall id :: id in installed ==> !Contains(Lower(p.stem), id) && !Contains(id, Lower(p.stem))) &&
                p.size.Some? && it == PlistItem(LaunchAgents, p)
  {
    ScanPlistsMembers(LaunchAgents, installed, listing);
    forall p | p in UntilAbort(LaunchAgents, installed, listing)
      ensures Owned(LaunchAgents, installed, p.stem) <==> TwoWayOwned(installed, p.stem)
    {
      EqualityIsContainment(LaunchAgents, installed, p.stem);
    }
  }

  /** `detect_cache_orphans`: a cache folder over 10 KiB unrelated by
      containment, either way, to every installed identifier. */
  function DetectCacheOrphans(installed: set<string>, listing: seq<Folder>): (r: seq<LeftoverItem>)
    ensures forall it :: it in r <==>
              exists f :: f in listing && f.isDir && !Skipped(Caches, Lower(f.name)) && f.size > 10240 &&
                (forall id :: id in installed ==> !Contains(Lower(f.name), id) && !Contains(id, Lower(f.name))) &&
                it == FolderItem(Caches, f)
    ensures forall it :: it in r ==> it.confidence == Medium && it.selected && it.category == "Caches"
  {
    CacheFolderMembers(installed, listing);
    ScanFoldersLabels(Caches, installed, listing);
    ScanFolders(Caches, installed, listing)
  }

  /** The cache walk, with the ownership test simplified. */
  lemma CacheFolderMembers(installed: set<string>, listing: seq<Folder>)
    ensures forall it :: it in ScanFolders(Caches, installed, listing) <==>
              exists f :: f in listing && f.isDir && !Skipped(Caches, Lower(f.name)) && f.size > 10240 &&
                (forall id :: id in installed ==> !Contains(Lower(f.name), id) && !Contains(id, Lower(f.name))) &&
                it == FolderItem(Caches, f)
  {
    ScanFoldersMembers(Caches, installed, listing);
    forall f | f in listing
      ensures Owned(Caches, installed, f.name) <==> TwoWayOwned(installed, f.name)
    {
      EqualityIsContainment(Caches, installed, f.name);
    }
  }

  /** `detect_logs_orphans`: the Application Support rule with its own skip
      list, reported with low confidence and not preselected. */
  function DetectLogsOrphans(installed: set<string>, listing: seq<Folder>): (r: seq<LeftoverItem>)
    ensures forall it :: it in r <==>
              exists f :: f in listing && f.isDir && !Skipped(Logs, Lower(f.name)) && f.size > 1024 &&
                (forall id :: id in installed ==>
                   !Contains(id, Lower(f.name)) && !Contains(Lower(f.name), id) && !TokenMatch(id, Lower(f.name))) &&
                it == FolderItem(Logs, f)
    ensures forall it :: it in r ==> it.confidence == Low && !it.selected && it.category == "Logs"
  {
    TokenRuleMembers(Logs, installed, listing);
    ScanFoldersLabels(Logs, installed, listing);
    ScanFolders(Logs, installed, listing)
  }

  /** The Application Support and Logs walks, with the rule written out. */
  lemma TokenRuleMembers(c: Category, installed: set<string>, listing: seq<Folder>)
    requires c == AppSupport || c == Logs
    ensures forall it :: it in ScanFolders(c, installed, listing) <==>
              exists f :: f in listing && f.isDir && !Skipped(c, Lower(f.name)) && f.size > 1024 &&
                (forall id :: id in installed ==>
                   !Contains(id, Lower(f.name)) && !Contains(Lower(f.name), id) && !TokenMatch(id, Lower(f.name))) &&
                it == FolderItem(c, f)
  {
    ScanFoldersMembers(c, installed, listing);
    forall f | f in listing
      ensures FolderEmits(c, installed, f) <==>
                f.isDir && !Skipped(c, Lower(f.name)) && f.size > 1024 &&
                (forall id :: id in installed ==>
                   !Contains(id, Lower(f.name)) && !Contains(Lower(f.name), id) && !TokenMatch(id, Lower(f.name)))
    {
      TokenRuleEmits(c, installed, f);
    }
  }

  lemma TokenRuleEmits(c: Category, installed: set<string>, f: Folder)
    requires c == AppSupport || c == Logs
    ensures FolderEmits(c, installed, f) <==>
              f.isDir && !Skipped(c, Lower(f.name)) && f.size > 1024 &&
              (forall id :: id in installed ==>
                 !Contains(id, Lower(f.name)) && !Contains(Lower(f.name), id) && !TokenMatch(id, Lower(f.name)))
  {
  }

  // ---------------------------------------------------------------------
  // What the ownership tests amount to.

  predicate TwoWayOwned(installed: set<string>, name: string) {
    exists id :: id in installed && (Contains(Lower(name), id) || Contains(id, Lower(name)))
  }

  /** Preferences: a file is owned exactly when some identifier occurs in its
      stem. In particular a stem that is a proper prefix of an installed
      identifier is not owned. */
  lemma PreferencesOwnedIff(installed: set<string>, name: string)
    ensures Owned(Preferences, installed, name) <==> exists id :: id in installed && Contains(Lower(name), id)
  {
    forall id | id in installed && OwnedBy(Preferences, id, name)
      ensures Contains(Lower(name), id)
    {
      if Lower(name) == id {
        assert Lower(name)[..|id|] == id;
      }
      if IsPrefix(id, Lower(name)) {
        ContainsOfPrefix(id, Lower(name));
      }
    }
  }

  /** Launch Agents and Caches: the equality test adds nothing to the
      two containment tests. */
  lemma EqualityIsContainment(c: Category, installed: set<string>, name: string)
    requires c == LaunchAgents || c == Caches
    ensures Owned(c, installed, name) <==> TwoWayOwned(installed, name)
  {
    forall id | id in installed && Lower(name) == id
      ensures Contains(Lower(name), id)
    {
      assert Lower(name)[..|id|] == id;
      ContainsOfPrefix(id, Lower(name));
    }
  }

  /** The group suffix is part of the lower-cased name. */
  lemma GroupSuffixContained(name: string)
    ensures Contains(Lower(name), GroupSuffix(name))
  {
    match SplitOnce(name, '.')
    case None =>
      ContainsOfPrefix(Lower(name), Lower(name));
    case Some(rest) =>
      var k := |name| - |rest|;
      assert name == name[..k] + rest;
      LowerAppend(name[..k], rest);
      ContainsInfix(Lower(name[..k]), Lower(rest), "");
      assert Lower(name[..k]) + Lower(rest) + "" == Lower(name);
  }

  /** Group Containers: the two tests of the source are as strong as the
      full four-way test relating the name and its suffix to an identifier
      by containment in either direction. */
  lemma GroupOwnedFourWay(installed: set<string>, name: string)
    ensures Owned(GroupContainers, installed, name) <==>
            exists id :: id in installed &&
              (Contains(Lower(name), id) || Contains(id, Lower(name)) ||
               Contains(GroupSuffix(name), id) || Contains(id, GroupSuffix(name)))
  {
    GroupSuffixContained(name);
    forall id | id in installed && Contains(id, Lower(name))
      ensures Contains(id, GroupSuffix(name))
    {
      ContainsTransitive(GroupSuffix(name), Lower(name), id);
    }
    forall id | id in installed && Contains(GroupSuffix(name), id)
      ensures Contains(Lower(name), id)
    {
      ContainsTransitive(id, GroupSuffix(name), Lower(name));
    }
  }

  /** Application Support and Logs: over lower-case identifiers, which is
      what the index holds, the token test is subsumed by containment. */
  lemma TokenMatchSubsumed(id: string, lname: string)
    requires IsLowerCase(id) && TokenMatch(id, lname)
    ensures Contains(id, lname)
  {
    var k :| 0 <= k < |Split(id, '.')| && Lower(Split(id, '.')[k]) == lname;
    SplitPiecesContained(id, '.', k);
    ContainsLowerCase(id, Split(id, '.')[k]);
  }

  lemma TokenOwnedIsTwoWay(c: Category, installed: set<string>, name: string)
    requires c == AppSupport || c == Logs
    requires forall id :: id in installed ==> IsLowerCase(id)
    ensures Owned(c, installed, name) <==> TwoWayOwned(installed, name)
  {
    forall id | id in installed && TokenMatch(id, Lower(name))
      ensures Contains(id, Lower(name))
    {
      TokenMatchSubsumed(id, Lower(name));
    }
  }

  /** Every owner under a stricter test is an owner under the looser
      Preferences test: a lower-cased name equal to an identifier. */
  lemma ExactNameOwnedEverywhere(c: Category, installed: set<string>, name: string)
    requires Lower(name) in installed
    ensures Owned(c, installed, name)
  {
    var id := Lower(name);
    ContainsOfPrefix(id, id);
    if c == GroupContainers {
      assert OwnedBy(c, id, name);
    }
  }

  /** With an empty index nothing is owned, so every entry of the right kind
      that is off the skip list and large enough is reported. */
  lemma EmptyIndexReportsAll(c: Category, f: Folder)
    ensures FolderEmits(c, {}, f) <==> f.isDir && !Skipped(c, Lower(f.name)) && LargeEnough(c, f.size)
  {
  }

  /** Item ids never collide across categories, and within one category
      they determine the entry name. */
  lemma ItemIdsDistinct(c1: Category, n1: string, p1: string, s1: nat,
                        c2: Category, n2: string, p2: string, s2: nat)
    requires ItemFor(c1, n1, p1, s1).id == ItemFor(c2, n2, p2, s2).id
    ensures c1 == c2 && n1 == n2
  {
    ItemTag(c1, n1, p1, s1);
    ItemTag(c2, n2, p2, s2);
    TagInjective(c1, c2);
  }

  lemma ItemTag(c: Category, n: string, p: string, s: nat)
    ensures var id := ItemFor(c, n, p, s).id;
            |id| >= 2 && id[..2] == Tag(c) && id[|IdPrefix(c)|..] == n
  {
    var id := ItemFor(c, n, p, s).id;
    IdPrefixTag(c);
    assert id[..2] == id[..|IdPrefix(c)|][..2];
  }

  /** The first two characters of each id prefix, which tell the categories apart. */
  function Tag(c: Category): string {
    match c
    case Containers => "co"
    case GroupContainers => "gr"
    case Preferences => "pr"
    case AppSupport => "ap"
    case LaunchAgents => "la"
    case Caches => "ca"
    case Logs => "lo"
  }

  lemma IdPrefixTag(c: Category)
    ensures |IdPrefix(c)| >= 2 && IdPrefix(c)[..2] == Tag(c)
  {
  }

  lemma TagInjective(c1: Category, c2: Category)
    requires Tag(c1) == Tag(c2)
    ensures c1 == c2
  {
    assert Tag(c1)[0] == Tag(c2)[0] && Tag(c1)[1] == Tag(c2)[1];
  }

  // ---------------------------------------------------------------------
  // Worked cases.

  /** A preference file whose stem is a proper prefix of the only installed
      identifier is still reported: only "identifier in stem" protects a
      file, so the preferences of `com.old.tool` are reported while
      `com.old.tool.helper` is installed. */
  lemma PreferencePrefixOfInstalledIsReported(stem: string, suffix: string, path: string, size: nat)
    requires IsLowerCase(stem) && !Skipped(Preferences, stem)
    requires suffix != "" && size > 0
    ensures var file := PlistFile(stem, path, true, Some(size));
            ItemFor(Preferences, stem, path, size) in DetectPreferenceOrphans({stem + suffix}, [file])
  {
    var file := PlistFile(stem, path, true, Some(size));
    var installed := {stem + suffix};
    assert !Owned(Preferences, installed, stem) by {
      assert Lower(stem) == stem;
      if Contains(stem, stem + suffix) {
        ContainsLength(stem, stem + suffix);
      }
      PreferencesOwnedIff(installed, stem);
    }
    assert PlistEmits(Preferences, installed, file);
    assert ScanPlists(Preferences, installed, [file]) == [PlistItem(Preferences, file)] by {
      assert [file][1..] == [];
    }
  }

  /** The skip entry "Dock" is a prefix test, so an unrelated "Docker"
      folder in Application Support is never reported. */
  lemma DockSkipsDocker(installed: set<string>, path: string, size: nat)
    ensures ScanFolders(AppSupport, installed, [Folder("Docker", path, true, size)]) == []
  {
    assert SkipList(AppSupport)[5] == "Dock";
    assert Lower("Dock") == "dock";
    assert Lower("Docker") == "docker";
    assert IsPrefix("dock", "docker");
    assert Skipped(AppSupport, Lower("Docker"));
    ScanFoldersMembers(AppSupport, installed, [Folder("Docker", path, true, size)]);
  }
}
