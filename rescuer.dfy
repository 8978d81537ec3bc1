/**
 * The rescuer's page state and the steps that change it: the folder list of
 * step 1, the AppID map, the identification table (`GAMES_TO_PROCESS`) and
 * the list of matched games (`IDENTIFIED_GAMES`) that step 3 turns into
 * manifests. The DOM updates that accompany each step are not modelled.
 */
module Rescuer {
  import opened Wrappers
  import opened Names
  import opened GameMaps
  import opened Fuzzy
  import Folders

  datatype Status = Pending | Loading | Success | Error | Removed

  /** One row of the identification table. */
  datatype Game = Game(id: nat, folderName: string, appId: string, officialName: string, status: Status)

  /** One entry of `IDENTIFIED_GAMES`. */
  datatype Identified = Identified(folderName: string, appId: string, officialName: string)

  /** The table `checkStep1` builds: one pending row per folder, numbered from 0. */
  function InitialTable(names: seq<string>): (t: seq<Game>)
    ensures |t| == |names|
    ensures IdsAreIndices(t) && NoneLoading(t)
    ensures forall i :: 0 <= i < |t| ==>
              t[i] == Game(i, names[i], "-", "Unknown", Pending)
  {
    seq(|names|, i requires 0 <= i < |names| => Game(i, names[i], "-", "Unknown", Pending))
  }

  predicate IdsAreIndices(gs: seq<Game>) {
    forall i :: 0 <= i < |gs| ==> gs[i].id == i
  }

  /** `loading` is only ever seen while a row is being looked up. */
  predicate NoneLoading(gs: seq<Game>) {
    forall i :: 0 <= i < |gs| ==> gs[i].status != Loading
  }

  /** The rows not removed: the "Detected Folders" count and the "of N folders" total. */
  function LeftCount(gs: seq<Game>): (n: nat)
    ensures n <= |gs|
  {
    if |gs| == 0 then 0
    else LeftCount(gs[..|gs| - 1]) + (if gs[|gs| - 1].status != Removed then 1 else 0)
  }

  lemma {:induction false} LeftCountZero(gs: seq<Game>)
    ensures LeftCount(gs) == 0 <==> forall i :: 0 <= i < |gs| ==> gs[i].status == Removed
  {
    if |gs| > 0 {
      LeftCountZero(gs[..|gs| - 1]);
      assert forall i :: 0 <= i < |gs| - 1 ==> gs[..|gs| - 1][i] == gs[i];
    }
  }

  /** `GAMES_TO_PROCESS.findIndex(g => g.id === gameId)`; `None` is -1. */
  function FindIndex(gs: seq<Game>, gameId: nat): (r: Option<nat>)
    ensures r.None? <==> forall i :: 0 <= i < |gs| ==> gs[i].id != gameId
    ensures r.Some? ==> r.value < |gs| && gs[r.value].id == gameId
                        && forall j :: 0 <= j < r.value ==> gs[j].id != gameId
  {
    if |gs| == 0 then None
    else if gs[0].id == gameId then Some(0)
    else
      match FindIndex(gs[1..], gameId)
      case None => None
      case Some(k) => Some(k + 1)
  }

  /** In a table numbered from 0, the game with id `k` is row `k`. */
  lemma FindIndexOfNumbered(gs: seq<Game>, gameId: nat)
    requires IdsAreIndices(gs)
    ensures FindIndex(gs, gameId) == if gameId < |gs| then Some(gameId) else None
  {
    if gameId < |gs| {
      assert gs[gameId].id == gameId;
    }
  }

  // ---- one identification pass ----

  /** A row the pass looks up: neither removed nor already matched. */
  predicate ToProcess(g: Game) {
    g.status != Removed && g.status != Success
  }

  /** The exact lookup `GAME_MAP[normalizedFolderName]`, when it gives a truthy AppID. */
  function ExactHit(m: GameMap, folderName: string): Option<string> {
    var hit := Lookup(m, NormalizeName(folderName));
    if hit.Some? && hit.value != "" then hit else None
  }

  /**
   * The official name shown for an exact hit: the first key of the map with
   * the same AppID, or the folder name when there is none or it is empty.
   */
  function ReverseName(m: GameMap, appId: string, folderName: string): (r: string)
    ensures r == folderName || Entry(r, appId) in m
    ensures forall i :: 0 <= i < |m| && m[i].value == appId && (forall j :: 0 <= j < i ==> m[j].value != appId)
              ==> r == if m[i].key != "" then m[i].key else folderName
    ensures (forall i :: 0 <= i < |m| ==> m[i].value != appId) ==> r == folderName
  {
    match FirstKeyWithValue(m, appId)
    case Some(k) => if k != "" then k else folderName
    case None => folderName
  }

  /** The row after the pass has looked at it, given the answer to its prompt. */
  function ProcessRow(m: GameMap, g: Game, answer: Option<string>): Game {
    if !ToProcess(g) then g
    else
      match ExactHit(m, g.folderName)
      case Some(v) => g.(appId := v, officialName := ReverseName(m, v, g.folderName), status := Success)
      case None =>
        match FuzzyMatch(m, NormalizeName(g.folderName), answer)
        case Some(mt) => g.(appId := mt.appId, officialName := mt.officialName, status := Success)
        case None => g.(appId := "-", officialName := "Not Found", status := Error)
  }

  /** The table after one pass of `startIdentify`. */
  function Identify(m: GameMap, gs: seq<Game>, answers: seq<Option<string>>): (r: seq<Game>)
    requires |answers| == |gs|
    ensures |r| == |gs|
  {
    seq(|gs|, i requires 0 <= i < |gs| => ProcessRow(m, gs[i], answers[i]))
  }

  /** The rows that a pass turned into matches, in table order. */
  function NewlyIdentified(before: seq<Game>, after: seq<Game>): (r: seq<Identified>)
    requires |before| == |after|
    ensures |r| <= |after|
  {
    if |after| == 0 then []
    else
      var n := |after| - 1;
      NewlyIdentified(before[..n], after[..n])
        + (if ToProcess(before[n]) && after[n].status == Success
           then [Identified(after[n].folderName, after[n].appId, after[n].officialName)]
           else [])
  }

  /**
   * A pass leaves removed and matched rows alone; every other row ends up
   * matched or not found; ids and folder names never change.
   */
  lemma IdentifyRows(m: GameMap, gs: seq<Game>, answers: seq<Option<string>>)
    requires |answers| == |gs|
    ensures var r := Identify(m, gs, answers);
      forall i :: 0 <= i < |gs| ==>
        && r[i].id == gs[i].id && r[i].folderName == gs[i].folderName
        && (!ToProcess(gs[i]) ==> r[i] == gs[i])
        && (ToProcess(gs[i]) ==> r[i].status == Success || r[i].status == Error)
  {
  }

  /** An exact hit wins: the row takes that AppID without a prompt, whatever the answer would be. */
  lemma ExactHitWins(m: GameMap, g: Game, answer: Option<string>)
    requires ToProcess(g) && ExactHit(m, g.folderName).Some?
    ensures var r := ProcessRow(m, g, answer);
      && r.status == Success
      && r.appId == ExactHit(m, g.folderName).value
      && (r.officialName == g.folderName
          || (Entry(r.officialName, r.appId) in m && r.officialName != ""))
      && r.officialName == ReverseName(m, r.appId, g.folderName)
  {
  }

  /**
   * A row ends in `error` with AppID "-" and "Not Found" exactly when there
   * is no exact hit and the similarity prompt yields nothing.
   */
  lemma NotFoundRow(m: GameMap, g: Game, answer: Option<string>)
    requires ToProcess(g)
    ensures var r := ProcessRow(m, g, answer);
      && (r.status == Error <==>
            ExactHit(m, g.folderName).None? && FuzzyMatch(m, NormalizeName(g.folderName), answer).None?)
      && (r.status == Error ==> r.appId == "-" && r.officialName == "Not Found")
  {
  }

  /**
   * A matched row carries an AppID taken from the map, and its official name
   * is either a map key listed under that AppID or the folder name.
   */
  lemma MatchFromMap(m: GameMap, g: Game, answer: Option<string>)
    requires ToProcess(g)
    ensures var r := ProcessRow(m, g, answer);
      r.status == Success ==>
        && (exists e :: e in m && e.value == r.appId)
        && (r.officialName == g.folderName || Entry(r.officialName, r.appId) in m)
  {
    var r := ProcessRow(m, g, answer);
    if r.status == Success {
      match ExactHit(m, g.folderName)
      case Some(v) =>
        var i :| 0 <= i < |m| && m[i] == Entry(NormalizeName(g.folderName), v);
        assert m[i] in m;
      case None =>
        var mt := FuzzyMatch(m, NormalizeName(g.folderName), answer).value;
        assert Entry(mt.officialName, mt.appId) in m;
    }
  }

  /** `IDENTIFIED_GAMES` holds exactly the rows this pass matched, in table order. */
  lemma {:induction false} NewlyIdentifiedRows(before: seq<Game>, after: seq<Game>, x: Identified)
    requires |before| == |after|
    ensures x in NewlyIdentified(before, after) <==>
      exists i :: 0 <= i < |after| && ToProcess(before[i]) && after[i].status == Success
                  && x == Identified(after[i].folderName, after[i].appId, after[i].officialName)
  {
    if |after| > 0 {
      var n := |after| - 1;
      NewlyIdentifiedRows(before[..n], after[..n], x);
      assert forall i :: 0 <= i < n ==> before[..n][i] == before[i] && after[..n][i] == after[i];
    }
  }

  lemma NewlyIdentifiedStep(before: seq<Game>, after: seq<Game>, i: nat)
    requires |before| == |after| && i < |after|
    ensures NewlyIdentified(before[..i + 1], after[..i + 1])
         == NewlyIdentified(before[..i], after[..i])
            + (if ToProcess(before[i]) && after[i].status == Success
               then [Identified(after[i].folderName, after[i].appId, after[i].officialName)]
               else [])
  {
    assert before[..i + 1][..i] == before[..i];
    assert after[..i + 1][..i] == after[..i];
  }

  /** One more row of the pass done: the table agrees with the pass's result on rows `..i + 1`. */
  lemma IdentifyPrefixStep(m: GameMap, before: seq<Game>, answers: seq<Option<string>>,
                           games: seq<Game>, i: nat, game: Game)
    requires |answers| == |before| == |games| && i < |games|
    requires forall j :: 0 <= j < i ==> games[j] == Identify(m, before, answers)[j]
    requires game == ProcessRow(m, before[i], answers[i])
    ensures forall j :: 0 <= j < i + 1 ==> games[i := game][j] == Identify(m, before, answers)[j]
  {
  }

  /** "Matched x of y folders": x never exceeds y, the rows not removed. */
  lemma {:induction false} MatchedAtMostLeft(before: seq<Game>, after: seq<Game>)
    requires |before| == |after|
    ensures |NewlyIdentified(before, after)| <= LeftCount(after)
  {
    if |after| > 0 {
      var n := |after| - 1;
      MatchedAtMostLeft(before[..n], after[..n]);
    }
  }

  /**
   * Running the pass again once every row is matched or removed changes no
   * row and matches nothing: the earlier matches drop out of `IDENTIFIED_GAMES`.
   */
  lemma {:induction false} RerunFindsNothing(m: GameMap, gs: seq<Game>, answers: seq<Option<string>>)
    requires |answers| == |gs|
    requires forall i :: 0 <= i < |gs| ==> !ToProcess(gs[i])
    ensures Identify(m, gs, answers) == gs
    ensures NewlyIdentified(gs, gs) == []
  {
    if |gs| > 0 {
      var n := |gs| - 1;
      RerunFindsNothing(m, gs[..n], answers[..n]);
    }
  }

  /**
   * The body of `startIdentify`'s loop for a row that is neither removed nor
   * matched: mark it loading, try the exact name, then the similarity
   * prompt; a match fills in AppID and official name, a miss marks it
   * "Not Found".
   */
  method ResolveRow(gameMap: GameMap, game: Game, answer: Option<string>) returns (resolved: Game)
    requires ToProcess(game)
    ensures resolved == ProcessRow(gameMap, game, answer)
  {
    resolved := game.(status := Loading, appId := "-", officialName := "Searching...");
    var normalizedFolderName := NormalizeName(resolved.folderName);
    var targetAppId := Lookup(gameMap, normalizedFolderName);
    var appId: string;
    var officialName := resolved.folderName;
    if targetAppId.None? || targetAppId.value == "" {
      var similarMatch := FindSimilarAppId(gameMap, normalizedFolderName, answer);
      if similarMatch.Some? {
        appId := similarMatch.value.appId;
        officialName := similarMatch.value.officialName;
        resolved := resolved.(status := Success);
      } else {
        resolved := resolved.(status := Error, officialName := "Not Found");
        return;
      }
    } else {
      appId := targetAppId.value;
      resolved := resolved.(status := Success);
      var reverse := FirstKeyWithValue(gameMap, appId);
      officialName := if reverse.Some? && reverse.value != "" then reverse.value else resolved.folderName;
    }
    resolved := resolved.(appId := appId, officialName := officialName);
  }

  /**
   * One row of `startIdentify`'s loop: removed and matched rows are skipped
   * (`continue`), any other row is resolved; `matched` says whether it joins
   * the identified list.
   */
  method IdentifyRow(gameMap: GameMap, game: Game, answer: Option<string>) returns (row: Game, matched: bool)
    ensures row == ProcessRow(gameMap, game, answer)
    ensures matched <==> ToProcess(game) && row.status == Success
  {
    if game.status == Removed || game.status == Success {
      return game, false;
    }
    row := ResolveRow(gameMap, game, answer);
    matched := row.status == Success;
  }

  /** One more truthy item of the array branch stored under its normalised name. */
  lemma LoadItemStep(m0: GameMap, items: seq<AppItem>, i: nat, m: GameMap, key: string, appid: string)
    requires i < |items| && m == Assign(m0, ArrayPairs(items[..i])) && UniqueKeys(m)
    requires Truthy(items[i])
    requires key == NormalizeName(items[i].name.value) && appid == Text.NatToString(items[i].appid.value)
    ensures Put(m, key, appid) == Assign(m0, ArrayPairs(items[..i + 1])) && UniqueKeys(Put(m, key, appid))
  {
    ArrayPairsStep(items, i);
    var p := NamedApp(appid, items[i].name.value);
    AssignStep(m0, ArrayPairs(items[..i]), p);
    PutUnique(m, key, appid);
  }

  /** An item that is not truthy is skipped. */
  lemma SkipItemStep(m0: GameMap, items: seq<AppItem>, i: nat, m: GameMap)
    requires i < |items| && m == Assign(m0, ArrayPairs(items[..i]))
    requires !Truthy(items[i])
    ensures m == Assign(m0, ArrayPairs(items[..i + 1]))
  {
    ArrayPairsStep(items, i);
    var ps := ArrayPairs(items[..i]);
    assert ps + [] == ps;
  }

  lemma LoadedAllItems(m0: GameMap, items: seq<AppItem>, m: GameMap)
    requires m == Assign(m0, ArrayPairs(items[..|items|]))
    ensures m == Assign(m0, ArrayPairs(items))
  {
    assert items[..|items|] == items;
  }

  /** One more property of the object branch stored. */
  lemma LoadPairStep(m0: GameMap, pairs: seq<NamedApp>, i: nat, m: GameMap)
    requires i < |pairs| && m == Assign(m0, pairs[..i]) && UniqueKeys(m)
    ensures var m' := Put(m, NormalizeName(pairs[i].name), pairs[i].appid);
      m' == Assign(m0, pairs[..i + 1]) && UniqueKeys(m')
  {
    assert pairs[..i + 1] == pairs[..i] + [pairs[i]];
    AssignStep(m0, pairs[..i], pairs[i]);
    PutLookup(m, NormalizeName(pairs[i].name), pairs[i].appid, "");
  }

  /** The loop of the array branch of `fetchAppIdMap`, run on the map `m0`. */
  method StoreItems(m0: GameMap, items: seq<AppItem>) returns (m: GameMap)
    requires UniqueKeys(m0)
    ensures m == Assign(m0, ArrayPairs(items)) && UniqueKeys(m)
  {
    m := m0;
    var i := 0;
    while i < |items|
      invariant 0 <= i <= |items|
      invariant m == Assign(m0, ArrayPairs(items[..i])) && UniqueKeys(m)
    {
      m := StoreItem(m0, items, i, m);
      i := i + 1;
    }
    LoadedAllItems(m0, items, m);
  }

  /** The loop body of the array branch: a truthy item is stored under its normalised name. */
  method StoreItem(m0: GameMap, items: seq<AppItem>, i: nat, m: GameMap) returns (m': GameMap)
    requires i < |items| && m == Assign(m0, ArrayPairs(items[..i])) && UniqueKeys(m)
    ensures m' == Assign(m0, ArrayPairs(items[..i + 1])) && UniqueKeys(m')
  {
    var item := items[i];
    if Truthy(item) {
      var key := NormalizeName(item.name.value);
      var appid := Text.NatToString(item.appid.value);
      LoadItemStep(m0, items, i, m, key, appid);
      m' := Put(m, key, appid);
    } else {
      SkipItemStep(m0, items, i, m);
      m' := m;
    }
  }

  /** The loop of the object branch of `fetchAppIdMap`, run on the map `m0`. */
  method StorePairs(m0: GameMap, pairs: seq<NamedApp>) returns (m: GameMap)
    requires UniqueKeys(m0)
    ensures m == Assign(m0, pairs) && UniqueKeys(m)
  {
    m := m0;
    var i := 0;
    while i < |pairs|
      invariant 0 <= i <= |pairs|
      invariant m == Assign(m0, pairs[..i]) && UniqueKeys(m)
    {
      LoadPairStep(m0, pairs, i, m);
      m := Put(m, NormalizeName(pairs[i].name), pairs[i].appid);
      i := i + 1;
    }
    assert pairs[..|pairs|] == pairs;
  }

  /**
   * The loop of `startIdentify` over the table: removed and matched rows are
   * skipped, every other row is resolved, and each new match is appended to
   * the identified list.
   */
  method IdentifyLoop(gameMap: GameMap, before: seq<Game>, answers: seq<Option<string>>)
    returns (games: seq<Game>, identified: seq<Identified>)
    requires |answers| == |before|
    ensures games == Identify(gameMap, before, answers)
    ensures identified == NewlyIdentified(before, games)
  {
    games := before;
    identified := [];
    ghost var after := Identify(gameMap, before, answers);
    var i := 0;
    while i < |games|
      invariant 0 <= i <= |games| == |before|
      invariant forall j :: 0 <= j < i ==> games[j] == after[j]
      invariant forall j :: i <= j < |games| ==> games[j] == before[j]
      invariant identified == NewlyIdentified(before[..i], after[..i])
    {
      games, identified := IdentifyStep(gameMap, before, answers, after, games, identified, i);
      i := i + 1;
    }
    assert games == after;
    assert before[..i] == before && after[..i] == after;
  }

  /** One iteration of the loop in `IdentifyLoop`: row `i` is visited and, when it becomes a match, recorded. */
  method IdentifyStep(gameMap: GameMap, before: seq<Game>, answers: seq<Option<string>>, ghost after: seq<Game>,
                      games: seq<Game>, identified: seq<Identified>, i: nat)
    returns (games': seq<Game>, identified': seq<Identified>)
    requires |answers| == |before| == |games| && i < |games| && after == Identify(gameMap, before, answers)
    requires forall j :: 0 <= j < i ==> games[j] == after[j]
    requires forall j :: i <= j < |games| ==> games[j] == before[j]
    requires identified == NewlyIdentified(before[..i], after[..i])
    ensures |games'| == |games|
    ensures forall j :: 0 <= j < i + 1 ==> games'[j] == after[j]
    ensures forall j :: i + 1 <= j < |games'| ==> games'[j] == before[j]
    ensures identified' == NewlyIdentified(before[..i + 1], after[..i + 1])
  {
    assert games[i] == before[i];
    var game, matched := IdentifyRow(gameMap, games[i], answers[i]);
    IdentifyPrefixStep(gameMap, before, answers, games, i, game);
    games' := games[i := game];
    NewlyIdentifiedStep(before, after, i);
    identified' := identified;
    if matched {
      identified' := identified + [Identified(game.folderName, game.appId, game.officialName)];
    }
  }

  /** A pass keeps the rows numbered by place and leaves none loading. */
  lemma IdentifyKeepsNumbering(m: GameMap, gs: seq<Game>, answers: seq<Option<string>>)
    requires |answers| == |gs| && IdsAreIndices(gs) && NoneLoading(gs)
    ensures IdsAreIndices(Identify(m, gs, answers)) && NoneLoading(Identify(m, gs, answers))
  {
    IdentifyRows(m, gs, answers);
  }

  // ---- the page state ----

  /** The answer of `fetchAppIdMap`'s download, already parsed. */
  datatype Download =
    | Failed                       // network or HTTP error, or unparsable JSON
    | AppArray(items: seq<AppItem>) // `[{appid, name}, ...]`
    | AppObject(pairs: seq<NamedApp>) // `{"<appid>": "<name>", ...}` in enumeration order

  /** What `startIdentify` reports when it returns. */
  datatype Outcome =
    | NothingLeft                  // "No folders selected or left to process."
    | MapNotLoaded                 // "AppID database is not loaded."
    | NoneMatched                  // "No games were matched successfully."
    | Matched(successCount: nat, totalFolders: nat)

  class Rescuer {
    var gameMap: GameMap
    var inputFolderNames: seq<string>
    var identifiedGames: seq<Identified>
    var gamesToProcess: seq<Game>

    /** Each map key once, each row numbered by its place, no row left loading. */
    predicate Valid()
      reads this
    {
      UniqueKeys(gameMap) && IdsAreIndices(gamesToProcess) && NoneLoading(gamesToProcess)
    }

    constructor()
      ensures Valid()
      ensures gameMap == [] && inputFolderNames == [] && identifiedGames == [] && gamesToProcess == []
    {
      gameMap := [];
      inputFolderNames := [];
      identifiedGames := [];
      gamesToProcess := [];
    }

    /** `handleFolderDirectory`: the game folders of the selected directory's files. */
    method HandleFolderDirectory(paths: seq<string>)
      modifies this
      ensures inputFolderNames == Folders.FolderNames(paths)
      ensures gameMap == old(gameMap) && identifiedGames == old(identifiedGames)
      ensures gamesToProcess == old(gamesToProcess)
    {
      if |paths| == 0 {
        inputFolderNames := [];
        return;
      }
      inputFolderNames := Folders.CollectFolderNames(paths);
    }

    /**
     * `checkStep1`: without selected folders, the typed names are used; with
     * none either it fails, otherwise it builds a fresh pending table.
     */
    method CheckStep1(manualText: string) returns (ok: bool)
      requires Valid()
      modifies this
      ensures Valid()
      ensures inputFolderNames
           == if |old(inputFolderNames)| == 0 then Folders.ManualFolders(manualText) else old(inputFolderNames)
      ensures ok <==> |inputFolderNames| > 0
      ensures ok ==> gamesToProcess == InitialTable(inputFolderNames)
      ensures !ok ==> gamesToProcess == old(gamesToProcess)
      ensures gameMap == old(gameMap) && identifiedGames == old(identifiedGames)
    {
      if |inputFolderNames| == 0 {
        inputFolderNames := Folders.ManualFolders(manualText);
      }
      if |inputFolderNames| == 0 {
        return false;
      }
      gamesToProcess := InitialTable(inputFolderNames);
      return true;
    }

    /** The array branch of `fetchAppIdMap`: each truthy item stores its normalised name. */
    method LoadArray(items: seq<AppItem>)
      requires Valid()
      modifies this
      ensures Valid()
      ensures gameMap == Assign(old(gameMap), ArrayPairs(items))
      ensures inputFolderNames == old(inputFolderNames) && identifiedGames == old(identifiedGames)
      ensures gamesToProcess == old(gamesToProcess)
    {
      gameMap := StoreItems(gameMap, items);
    }

    /** The object branch of `fetchAppIdMap`: each (AppID, name) property stores its normalised name. */
    method LoadObject(pairs: seq<NamedApp>)
      requires Valid()
      modifies this
      ensures Valid()
      ensures gameMap == Assign(old(gameMap), pairs)
      ensures inputFolderNames == old(inputFolderNames) && identifiedGames == old(identifiedGames)
      ensures gamesToProcess == old(gamesToProcess)
    {
      gameMap := StorePairs(gameMap, pairs);
    }

    /**
     * `fetchAppIdMap` once the download has finished: the map grows by the
     * downloaded list (it is never cleared); a failure leaves it as it was.
     */
    method FetchAppIdMap(download: Download)
      requires Valid()
      modifies this
      ensures Valid()
      ensures gameMap == match download
                         case Failed => old(gameMap)
                         case AppArray(items) => Assign(old(gameMap), ArrayPairs(items))
                         case AppObject(pairs) => Assign(old(gameMap), pairs)
      ensures inputFolderNames == old(inputFolderNames) && identifiedGames == old(identifiedGames)
      ensures gamesToProcess == old(gamesToProcess)
    {
      match download
      case Failed =>
      case AppArray(items) => LoadArray(items);
      case AppObject(pairs) => LoadObject(pairs);
    }

    /** `removeGame(gameId)`: the first row with that id is marked removed. */
    method RemoveGame(gameId: nat)
      requires Valid()
      modifies this
      ensures Valid()
      ensures |gamesToProcess| == |old(gamesToProcess)|
      ensures forall i :: 0 <= i < |gamesToProcess| ==>
        gamesToProcess[i] == if old(gamesToProcess)[i].id == gameId
                             then old(gamesToProcess)[i].(status := Removed)
                             else old(gamesToProcess)[i]
      ensures gameMap == old(gameMap) && inputFolderNames == old(inputFolderNames)
      ensures identifiedGames == old(identifiedGames)
    {
      var index := FindIndex(gamesToProcess, gameId);
      FindIndexOfNumbered(gamesToProcess, gameId);
      if index.Some? {
        gamesToProcess := gamesToProcess[index.value := gamesToProcess[index.value].(status := Removed)];
      }
    }

    /**
     * `startIdentify`, with `answers[i]` the reply to the prompt row `i` would
     * raise (`None` for a cancelled prompt).
     */
    method StartIdentify(answers: seq<Option<string>>) returns (outcome: Outcome)
      requires Valid() && |answers| == |gamesToProcess|
      modifies this
      ensures Valid()
      ensures LeftCount(old(gamesToProcess)) == 0 ==> outcome == NothingLeft
      ensures LeftCount(old(gamesToProcess)) != 0 && gameMap == [] ==> outcome == MapNotLoaded
      ensures outcome == NothingLeft || outcome == MapNotLoaded ==>
        gamesToProcess == old(gamesToProcess) && identifiedGames == old(identifiedGames)
      ensures outcome != NothingLeft && outcome != MapNotLoaded ==>
        && gamesToProcess == Identify(gameMap, old(gamesToProcess), answers)
        && identifiedGames == NewlyIdentified(old(gamesToProcess), gamesToProcess)
        && outcome == if |identifiedGames| > 0
                      then Matched(|identifiedGames|, LeftCount(gamesToProcess))
                      else NoneMatched
      ensures gameMap == old(gameMap) && inputFolderNames == old(inputFolderNames)
    {
      if LeftCount(gamesToProcess) == 0 {
        return NothingLeft;
      }
      if |gameMap| == 0 {
        return MapNotLoaded;
      }
      IdentifyKeepsNumbering(gameMap, gamesToProcess, answers);
      gamesToProcess, identifiedGames := IdentifyLoop(gameMap, gamesToProcess, answers);
      if |identifiedGames| > 0 {
        return Matched(|identifiedGames|, LeftCount(gamesToProcess));
      }
      return NoneMatched;
    }
  }
}
