/** src/server/client.c with the commands of src/server/command.c and command_settings.c that leave the game: a
    connection from its first line to its end, as a machine whose state is the handler of the next line. */
module Login {
  import opened Shared
  import opened Text
  import Flags

  /** The client_* functions that conn->handler can be; Closed is no handler. */
  datatype Handler =
    | GetAccountName | GetAccountPassword | CreateAccount | CreateAccountPassword | ConfirmAccountPassword
    | CreateAccountEmail | GetTimezone | AccountMenu | CreateNewChar | GetCharSex | GetRace | GetClass
    | CommandParser | ConfirmDeleteChar | ConfirmAccountDelete | Closed

  /** A character in memory; ref is its address. The choices of a new character are None until they are made. */
  datatype Character = Character(ref: nat, id: int, name: string, created: bool,
                                 sex: Option<int>, race: Option<int>, classes: seq<int>)

  datatype AccountPlayer = AccountPlayer(charId: int, name: string)

  datatype Account = Account(login: string, password: string, players: seq<AccountPlayer>, autologinId: int,
                             playing: Option<Character>)

  /** What the server stores for an account. */
  datatype Stored = Stored(password: string, players: seq<AccountPlayer>, autologinId: int)

  datatype Command = Logout | Quit | Delete | Save | OtherCommand

  /** What the handlers call. */
  datatype Env = Env(crypt: (string, string) -> string, validEmail: string -> bool, timezone: string -> int,
                     race: string -> Option<int>, class_: string -> int, command: string -> Command)

  /** What the database and the memory answer while an event is handled: whether a character can be loaded, whether
      what is written takes effect, the address that one more character gets and the row of a new stored one. */
  datatype Answers = Answers(loads: bool, stores: bool, at: nat, row: int)

  /** A line of input; the saving of a player who has gained a level; the end of the connection; and what the
      other connections make of the list of players, of the addresses in use and of the stored accounts. */
  datatype Event =
    | Line(arg: string, ans: Answers) | Autosave(ans: Answers) | Hangup(ans: Answers)
    | Others(firstPlayer: seq<nat>, live: set<nat>, accounts: map<string, Stored>)

  /** A connection, the global list of players, the addresses of the characters in memory and the stored accounts.
      An account whose character has been destroyed keeps its address: it is dangling. */
  datatype State = State(handler: Handler, account: Option<Account>, retries: nat, dangling: bool,
                         firstPlayer: seq<nat>, live: set<nat>, accounts: map<string, Stored>)

  const SEX_TABLE := [Flags.Lookup("neutral", 0), Flags.Lookup("male", 1), Flags.Lookup("female", 2),
      Flags.Lookup("hermaphrodite", 3)]

  function Upper(arg: string): char {
    if arg == [] then '\0' else if 'a' <= arg[0] <= 'z' then (arg[0] as int - 32) as char else arg[0]
  }

  /** isalpha */
  predicate IsAlpha(c: char) {
    'a' <= c <= 'z' || 'A' <= c <= 'Z'
  }

  predicate GoodCharName(arg: string) {
    3 <= |arg| <= 12 && forall i :: 0 <= i < |arg| ==> IsAlpha(arg[i])
  }

  /** capitalize */
  function Capitalize(arg: string): string {
    if arg == [] then [] else [Upper(arg)] + seq(|arg| - 1, i requires 0 <= i < |arg| - 1 => Lower(arg[i + 1]))
  }

  /** The sex that a number or a name chooses. */
  function SexOf(arg: string): (v: int)
    ensures v >= -1
  {
    if LooksNumeric(arg) then
      var num := Atoi(arg);
      if 1 <= num <= |SEX_TABLE| then SEX_TABLE[num - 1].value else -1
    else Flags.ValueOf(SEX_TABLE, arg)
  }

  function Unlinked(list: seq<nat>, ref: nat): (r: seq<nat>)
    ensures forall x :: x in r ==> x in list
  {
    if list == [] then [] else if list[0] == ref then list[1..] else [list[0]] + Unlinked(list[1..], ref)
  }

  // ---------------------------------------------------------------- the characters of an account

  /** Where the list is after k links, when it starts at head and the entry points to next; 0 is NULL. */
  function Walk(head: nat, entry: nat, next: nat, k: nat): nat {
    if k == 0 then head else if Walk(head, entry, next, k - 1) == entry then next else 0
  }

  lemma {:induction false} NeverEnds(entry: nat, k: nat)
    ensures Walk(entry, entry, entry, k) == entry
  {
    if k > 0 {
      NeverEnds(entry, k - 1);
    }
  }

  /** load_account_players: links one entry once for every row, so it shows the last row, and the list ends if and
      only if there are fewer than two. */
  method LoadAccountPlayers(rows: seq<AccountPlayer>, entry: nat) returns (head: nat, next: nat, ch: AccountPlayer)
    requires entry != 0
    ensures rows != [] ==> head == entry && ch == rows[|rows| - 1]
    ensures (exists k: nat :: Walk(head, entry, next, k) == 0) <==> |rows| < 2
  {
    head, next, ch := 0, 0, AccountPlayer(0, "");
    for i := 0 to |rows|
      invariant head == if i == 0 then 0 else entry
      invariant next == if i < 2 then 0 else entry
      invariant i > 0 ==> ch == rows[i - 1]
    {
      ch := rows[i];
      next := head;
      head := entry;
    }
    ListEndsIff(head, entry, next, |rows|);
  }

  lemma {:induction false} ListEndsIff(head: nat, entry: nat, next: nat, rows: nat)
    requires entry != 0
    requires head == (if rows == 0 then 0 else entry) && next == if rows < 2 then 0 else entry
    ensures (exists k: nat :: Walk(head, entry, next, k) == 0) <==> rows < 2
  {
    if rows < 2 {
      assert Walk(head, entry, next, rows) == 0;
    } else {
      forall k: nat
        ensures Walk(head, entry, next, k) != 0
      {
        NeverEnds(entry, k);
      }
    }
  }

  // ---------------------------------------------------------------- what each handler does

  /** The account keeps the address of a character. */
  predicate Plays(s: State) {
    s.account.Some? && s.account.value.playing.Some?
  }

  function Address(s: State): nat
    requires Plays(s)
  {
    s.account.value.playing.value.ref
  }

  function WithPlaying(s: State, ch: Option<Character>): State
    requires s.account.Some?
  {
    s.(account := Some(s.account.value.(playing := ch)))
  }

  /** new_char: a character at a new address. */
  function Created(s: State, ch: Character): State
    requires s.account.Some?
  {
    WithPlaying(s, Some(ch)).(dangling := false, live := s.live + {ch.ref})
  }

  /** set_playing: on to the command parser, and onto the list of players. */
  function Entered(s: State): State
    requires Plays(s)
  {
    s.(handler := CommandParser, firstPlayer := [Address(s)] + s.firstPlayer)
  }

  /** The UNLINK of do_logout and do_delete; the character stays in memory. */
  function Left(s: State): State
    requires Plays(s)
  {
    s.(firstPlayer := Unlinked(s.firstPlayer, Address(s)))
  }

  /** extract_char for account->playing, if it is set: whatever character has that address is unlinked and freed. */
  function Extracted(s: State): State {
    if Plays(s) then Left(s).(live := s.live - {Address(s)}, dangling := true) else s
  }

  function Load(s: State, p: AccountPlayer, at: nat): State
    requires s.account.Some?
  {
    Created(s, Character(at, p.charId, p.name, false, None, None, []))
  }

  function NotLoaded(s: State): State
    requires s.account.Some?
  {
    WithPlaying(s, None).(dangling := false)
  }

  function PlayerWithId(players: seq<AccountPlayer>, id: int): Option<AccountPlayer> {
    if players == [] then None else if players[0].charId == id then Some(players[0]) else PlayerWithId(players[1..], id)
  }

  /** The stored characters of an account after one has been saved. */
  function SavedPlayers(players: seq<AccountPlayer>, ch: Character): seq<AccountPlayer> {
    if PlayerWithId(players, ch.id).Some? then players else players + [AccountPlayer(ch.id, ch.name)]
  }

  /** save_player: the account first, then its character, which gets a row if it has none. */
  function Saved(s: State, ans: Answers): State
    requires Plays(s)
  {
    var a := s.account.value;
    var ch := if a.playing.value.id == 0 then a.playing.value.(id := ans.row) else a.playing.value;
    var players := if a.login in s.accounts then s.accounts[a.login].players else [];
    if !ans.stores then s
    else
      WithPlaying(s, Some(ch)).(accounts :=
        s.accounts[a.login := Stored(a.password, SavedPlayers(players, ch), a.autologinId)])
  }

  /** A player is saved when a level is gained and when the connection ends. */
  function SavedInPlay(s: State, ans: Answers): State
    requires s.handler == CommandParser ==> Plays(s)
  {
    if s.handler == CommandParser then Saved(s, ans) else s
  }

  function WithoutPlayer(players: seq<AccountPlayer>, id: int): seq<AccountPlayer> {
    if players == [] then []
    else (if players[0].charId == id then [] else [players[0]]) + WithoutPlayer(players[1..], id)
  }

  /** delete_player */
  function PlayerDeleted(s: State, ans: Answers): State
    requires Plays(s)
  {
    var a := s.account.value;
    if !ans.stores || a.login !in s.accounts then s
    else
      var was := s.accounts[a.login];
      s.(accounts := s.accounts[a.login := was.(players := WithoutPlayer(was.players, a.playing.value.id))])
  }

  /** delete_account */
  function AccountDeleted(s: State, ans: Answers): State
    requires s.account.Some?
  {
    if ans.stores then s.(accounts := s.accounts - {s.account.value.login}) else s
  }

  function Matches(env: Env, a: Account, arg: string): bool {
    a.password == env.crypt(arg, a.login)
  }

  /** new_account: another account, without a character. */
  function WithAccount(s: State, a: Account): State {
    s.(account := Some(a), dangling := false)
  }

  function OnAccountName(s: State, arg: string): State {
    if arg == "" then s
    else if arg in s.accounts then
      var a := s.accounts[arg];
      WithAccount(s, Account(arg, a.password, a.players, a.autologinId, None)).(handler := GetAccountPassword)
    else WithAccount(s, Account(arg, "", [], 0, None)).(handler := CreateAccount)
  }

  function OnAccountPassword(env: Env, s: State, arg: string, ans: Answers): State
    requires s.account.Some?
  {
    var a := s.account.value;
    if !Matches(env, a, arg) then
      if s.retries >= 2 then s.(handler := Closed) else s.(retries := s.retries + 1)
    else
      var p := PlayerWithId(a.players, a.autologinId);
      if p.None? then s.(handler := AccountMenu)
      else if ans.loads then Entered(Load(s, p.value, ans.at))
      else NotLoaded(s)
  }

  function OnCreateAccount(s: State, arg: string): State {
    if Upper(arg) == 'Y' then s.(handler := CreateAccountPassword)
    else if Upper(arg) == 'N' then s.(handler := GetAccountName)
    else s
  }

  function OnCreatePassword(env: Env, s: State, arg: string): State
    requires s.account.Some?
  {
    if |arg| < 6 then s
    else
      var a := s.account.value;
      s.(account := Some(a.(password := env.crypt(arg, a.login))), handler := ConfirmAccountPassword)
  }

  function OnConfirmPassword(env: Env, s: State, arg: string): State
    requires s.account.Some?
  {
    s.(handler := if Matches(env, s.account.value, arg) then CreateAccountEmail else CreateAccountPassword)
  }

  function OnEmail(env: Env, s: State, arg: string): State {
    if arg == "" || !env.validEmail(arg) then s else s.(handler := GetTimezone)
  }

  function OnTimezone(env: Env, s: State, arg: string): State {
    if env.timezone(arg) == -1 then s else s.(handler := AccountMenu)
  }

  function OnAccountMenu(s: State, arg: string, ans: Answers): State
    requires s.account.Some?
  {
    if LooksNumeric(arg) then
      var num, players := Atoi(arg), s.account.value.players;
      if 1 <= num <= |players| then
        if ans.loads then Entered(Load(s, players[num - 1], ans.at)) else NotLoaded(s)
      else s
    else if Upper(arg) == 'C' then s.(handler := CreateNewChar)
    else if Upper(arg) == 'D' then s.(handler := ConfirmAccountDelete)
    else if Upper(arg) == 'E' then s.(handler := Closed)
    else s
  }

  function OnCreateChar(s: State, arg: string, at: nat): State
    requires s.account.Some?
  {
    if !GoodCharName(arg) then s
    else Created(s, Character(at, 0, Capitalize(arg), true, None, None, [])).(handler := GetCharSex)
  }

  function OnSex(s: State, arg: string): State
    requires Plays(s)
  {
    if arg == "" || SexOf(arg) == -1 then s
    else WithPlaying(s, Some(s.account.value.playing.value.(sex := Some(SexOf(arg))))).(handler := GetRace)
  }

  function OnRace(env: Env, s: State, arg: string): State
    requires Plays(s)
  {
    if arg == "" || env.race(arg).None? then s
    else WithPlaying(s, Some(s.account.value.playing.value.(race := env.race(arg)))).(handler := GetClass)
  }

  function OnClass(env: Env, s: State, arg: string): State
    requires Plays(s)
  {
    if arg == "" || env.class_(arg) == -1 then s
    else
      var ch := s.account.value.playing.value;
      var s' := Entered(WithPlaying(s, Some(ch.(classes := ch.classes + [env.class_(arg)]))));
      s'.(account := Some(s'.account.value.(players := [AccountPlayer(ch.id, ch.name)] + s'.account.value.players)))
  }

  function OnConfirmDeleteChar(env: Env, s: State, arg: string, ans: Answers): State
    requires Plays(s)
  {
    if arg == "" || !Matches(env, s.account.value, arg) then Entered(s)
    else Extracted(PlayerDeleted(s, ans)).(handler := AccountMenu)
  }

  function OnConfirmAccountDelete(env: Env, s: State, arg: string, ans: Answers): State
    requires s.account.Some?
  {
    if !Matches(env, s.account.value, arg) then s.(handler := AccountMenu)
    else Extracted(AccountDeleted(s, ans)).(handler := Closed)
  }

  /** do_logout, do_quit, do_delete and do_save; any other command leaves the connection as it is. */
  function OnCommand(env: Env, s: State, arg: string, ans: Answers): State
    requires Plays(s)
  {
    match env.command(arg)
    case Logout => Left(s).(handler := AccountMenu)
    case Quit => s.(handler := Closed)
    case Delete => Left(s).(handler := ConfirmDeleteChar)
    case Save => Saved(s, ans)
    case OtherCommand => s
  }

  /** What the handlers count on: an account from the first name on, a character from its creation on. */
  predicate Ready(s: State) {
    && (s.handler != GetAccountName && s.handler != Closed ==> s.account.Some?)
    && (s.handler in {GetCharSex, GetRace, GetClass, CommandParser, ConfirmDeleteChar} ==> Plays(s))
  }

  function OnLine(env: Env, s: State, arg: string, ans: Answers): State
    requires Ready(s)
  {
    match s.handler
    case GetAccountName => OnAccountName(s, arg)
    case GetAccountPassword => OnAccountPassword(env, s, arg, ans)
    case CreateAccount => OnCreateAccount(s, arg)
    case CreateAccountPassword => OnCreatePassword(env, s, arg)
    case ConfirmAccountPassword => OnConfirmPassword(env, s, arg)
    case CreateAccountEmail => OnEmail(env, s, arg)
    case GetTimezone => OnTimezone(env, s, arg)
    case AccountMenu => OnAccountMenu(s, arg, ans)
    case CreateNewChar => OnCreateChar(s, arg, ans.at)
    case GetCharSex => OnSex(s, arg)
    case GetRace => OnRace(env, s, arg)
    case GetClass => OnClass(env, s, arg)
    case CommandParser => OnCommand(env, s, arg, ans)
    case ConfirmDeleteChar => OnConfirmDeleteChar(env, s, arg, ans)
    case ConfirmAccountDelete => OnConfirmAccountDelete(env, s, arg, ans)
    case Closed => s
  }

  function Next(env: Env, s: State, e: Event): (s': State)
    requires Ready(s)
    ensures Ready(s')
  {
    match e
    case Line(arg, ans) => OnLine(env, s, arg, ans)
    case Autosave(ans) => SavedInPlay(s, ans)
    case Hangup(ans) => Extracted(SavedInPlay(s, ans)).(handler := Closed, account := None, dangling := false)
    case Others(firstPlayer, live, accounts) => s.(firstPlayer := firstPlayer, live := live, accounts := accounts)
  }

  /** new_client, on a server where others may be playing. */
  function Fresh(firstPlayer: seq<nat>, live: set<nat>, accounts: map<string, Stored>): State {
    State(GetAccountName, None, 0, false, firstPlayer, live, accounts)
  }

  predicate IsFresh(s: State) {
    s == Fresh(s.firstPlayer, s.live, s.accounts)
  }

  /** The state after the first n events of a run. */
  function After(env: Env, start: State, events: seq<Event>, n: nat): (s: State)
    requires Ready(start) && n <= |events|
    ensures Ready(s)
  {
    if n == 0 then start else Next(env, After(env, start, events, n - 1), events[n - 1])
  }

  // ---------------------------------------------------------------- what every state of a run keeps

  lemma {:induction false} UnlinkedOnly(list: seq<nat>, ref: nat)
    requires NoDuplicates(list)
    ensures NoDuplicates(Unlinked(list, ref))
    ensures forall x :: x in Unlinked(list, ref) <==> x in list && x != ref
  {
    if list != [] {
      assert list == [list[0]] + list[1..];
      assert list[0] !in list[1..];
      UnlinkedOnly(list[1..], ref);
    }
  }

  // ---------------------------------------------------------------- where lines lead

  /** A printed number is a number, and one without a sign. */
  lemma {:induction false} DigitsAreNumeric(n: nat)
    ensures LooksNumeric(Digits(n)) && Atoi(Digits(n)) == n
  {
    AtoiOfDigits(n);
    assert Digits(n)[0] in Digits(n);
  }

  lemma {:induction false} LettersAreNot(arg: string)
    requires arg != "" && IsAlpha(arg[0])
    ensures !LooksNumeric(arg)
  {
    assert arg[0] in arg;
  }

  /** The account menu: number k plays the k-th of the account's characters, if it can be loaded; any other number
      does nothing; c creates a character, d deletes the account, e leaves, and any other letter does nothing. */
  lemma {:induction false} MenuLeads(env: Env, s: State, arg: string, ans: Answers, k: nat)
    requires Ready(s) && s.handler == AccountMenu
    ensures var players, s' := s.account.value.players, Next(env, s, Line(Digits(k), ans));
            if 1 <= k <= |players| && ans.loads
            then && s'.handler == CommandParser && s'.firstPlayer == [ans.at] + s.firstPlayer
                 && s'.live == s.live + {ans.at} && Plays(s') && s'.account.value.playing.value.ref == ans.at
                 && s'.account.value.playing.value.id == players[k - 1].charId
                 && s'.account.value.playing.value.name == players[k - 1].name
            else s'.handler == AccountMenu && s'.firstPlayer == s.firstPlayer && s'.live == s.live
    ensures arg != "" && IsAlpha(arg[0]) ==>
              Next(env, s, Line(arg, ans)) ==
                s.(handler := match arg[0]
                              case 'c' => CreateNewChar
                              case 'C' => CreateNewChar
                              case 'd' => ConfirmAccountDelete
                              case 'D' => ConfirmAccountDelete
                              case 'e' => Closed
                              case 'E' => Closed
                              case _ => AccountMenu)
  {
    DigitsAreNumeric(k);
    if arg != "" && IsAlpha(arg[0]) {
      LettersAreNot(arg);
    }
    hide LooksNumeric, Atoi, Digits;
  }

  /** The sex by number: neutral, male, female and hermaphrodite in this order. */
  lemma {:induction false} SexByNumber(k: nat)
    ensures SexOf(Digits(k)) == if 1 <= k <= 4 then k - 1 else -1
  {
    DigitsAreNumeric(k);
    hide LooksNumeric, Atoi, Digits;
  }

  /** The sex by name, in any case and abbreviated. */
  lemma {:induction false} SexByName(arg: string)
    requires arg != "" && IsAlpha(arg[0])
    ensures SexOf(arg) == if IsPrefix(arg, "neutral") then 0
                          else if IsPrefix(arg, "male") then 1
                          else if IsPrefix(arg, "female") then 2
                          else if IsPrefix(arg, "hermaphrodite") then 3
                          else -1
  {
    LettersAreNot(arg);
    var t := SEX_TABLE;
    assert t == [t[0]] + ([t[1]] + ([t[2]] + ([t[3]] + [])));
    hide LooksNumeric, IsPrefix, Flags.ValueOf;
    NextEntry(t[0], [t[1]] + ([t[2]] + ([t[3]] + [])), arg);
    NextEntry(t[1], [t[2]] + ([t[3]] + []), arg);
    NextEntry(t[2], [t[3]] + [], arg);
    NextEntry(t[3], [], arg);
  }

  lemma {:induction false} NextEntry(l: Flags.Lookup, rest: seq<Flags.Lookup>, arg: string)
    requires arg != ""
    ensures Flags.ValueOf([l] + rest, arg) == if IsPrefix(arg, l.name) then l.value else Flags.ValueOf(rest, arg)
    ensures Flags.ValueOf([], arg) == -1
  {
    assert ([l] + rest)[1..] == rest;
  }

  /** A new character has the name that was typed, with a capital letter first and small ones behind it. */
  lemma {:induction false} NameIsCapitalized(env: Env, s: State, arg: string, ans: Answers)
    requires Ready(s) && s.handler == CreateNewChar
    ensures var s' := Next(env, s, Line(arg, ans));
            if 3 <= |arg| <= 12 && forall i :: 0 <= i < |arg| ==> 'a' <= arg[i] <= 'z' || 'A' <= arg[i] <= 'Z'
            then && s'.handler == GetCharSex && Plays(s') && SameName(s'.account.value.playing.value.name, arg)
                 && (forall i :: 0 <= i < |arg| ==>
                       if i == 0 then 'A' <= s'.account.value.playing.value.name[i] <= 'Z'
                       else 'a' <= s'.account.value.playing.value.name[i] <= 'z')
                 && s'.account.value.playing.value.ref == ans.at && s'.live == s.live + {ans.at}
                 && s'.account.value.playing.value.created && s'.firstPlayer == s.firstPlayer
            else s' == s
  {
    if GoodCharName(arg) {
      assert IsAlpha(arg[0]);
      assert SameName(Capitalize(arg), arg);
    }
  }

  /** The choices of a new character are those of its lines, and with the class it enters play and heads the list of
      the account's characters. */
  lemma {:induction false} ChoicesAreRecorded(env: Env, s: State, arg: string, ans: Answers)
    requires Ready(s) && s.handler in {GetCharSex, GetRace, GetClass}
    ensures var s', ch := Next(env, s, Line(arg, ans)), s.account.value.playing.value;
            && s'.account.Some?
            && (s.handler == GetCharSex ==>
                  if arg == "" || SexOf(arg) == -1 then s' == s
                  else && s'.handler == GetRace && s'.account.value.playing == Some(ch.(sex := Some(SexOf(arg))))
                       && s'.firstPlayer == s.firstPlayer)
            && (s.handler == GetRace ==>
                  if arg == "" || env.race(arg) == None then s' == s
                  else && s'.handler == GetClass && s'.account.value.playing == Some(ch.(race := env.race(arg)))
                       && s'.firstPlayer == s.firstPlayer)
            && (s.handler == GetClass ==>
                  if arg == "" || env.class_(arg) == -1 then s' == s
                  else && s'.handler == CommandParser && s'.firstPlayer == [ch.ref] + s.firstPlayer
                       && s'.account.value.playing == Some(ch.(classes := ch.classes + [env.class_(arg)]))
                       && s'.account.value.players == [AccountPlayer(ch.id, ch.name)] + s.account.value.players)
  {
    hide SexOf;
  }

  /** A name that is stored loads the account as it is stored; any other name is a new account without a password or
      characters. */
  lemma {:induction false} NameLoadsAccount(env: Env, s: State, arg: string, ans: Answers)
    requires Ready(s) && s.handler == GetAccountName && arg != ""
    ensures var s' := Next(env, s, Line(arg, ans));
            && s'.account.Some? && s'.firstPlayer == s.firstPlayer && s'.live == s.live && s'.accounts == s.accounts
            && var a := s'.account.value;
               && a.login == arg && a.playing == None
               && (if arg in s.accounts
                   then && a.password == s.accounts[arg].password && a.players == s.accounts[arg].players
                        && a.autologinId == s.accounts[arg].autologinId
                   else a.password == "" && a.players == [] && a.autologinId == 0)
  {
  }

  /** The right password leads to the menu, or right into play with the character that logs in by itself; with the
      wrong one there is another try, up to two. */
  lemma {:induction false} PasswordLeads(env: Env, s: State, arg: string, ans: Answers)
    requires Ready(s) && s.handler == GetAccountPassword
    ensures var s', a := Next(env, s, Line(arg, ans)), s.account.value;
            if a.password != env.crypt(arg, a.login)
            then if s.retries < 2 then s' == s.(retries := s.retries + 1) else s' == s.(handler := Closed)
            else if exists p :: p in a.players && p.charId == a.autologinId
            then && s'.handler == (if ans.loads then CommandParser else GetAccountPassword)
                 && s'.firstPlayer == (if ans.loads then [ans.at] + s.firstPlayer else s.firstPlayer)
                 && (ans.loads ==> Plays(s') && s'.account.value.playing.value.id == a.autologinId)
            else s' == s.(handler := AccountMenu)
  {
    FoundById(s.account.value.players, s.account.value.autologinId);
    IdOfFound(s.account.value.players, s.account.value.autologinId);
    hide PlayerWithId;
  }

  lemma {:induction false} IdOfFound(players: seq<AccountPlayer>, id: int)
    ensures PlayerWithId(players, id).Some? ==> PlayerWithId(players, id).value.charId == id
  {
    if players != [] {
      IdOfFound(players[1..], id);
    }
  }

  /** Each line of a new account leads on or back. */
  lemma {:induction false} AccountLeads(env: Env, s: State, arg: string, ans: Answers)
    requires Ready(s) && arg != ""
    ensures var h := Next(env, s, Line(arg, ans)).handler;
            match s.handler
            case GetAccountName => h == if arg in s.accounts then GetAccountPassword else CreateAccount
            case CreateAccount => h == (match arg[0]
                                        case 'y' => CreateAccountPassword
                                        case 'Y' => CreateAccountPassword
                                        case 'n' => GetAccountName
                                        case 'N' => GetAccountName
                                        case _ => CreateAccount)
            case CreateAccountPassword => h == if |arg| < 6 then CreateAccountPassword else ConfirmAccountPassword
            case ConfirmAccountPassword =>
              h == if s.account.value.password == env.crypt(arg, s.account.value.login) then CreateAccountEmail
                   else CreateAccountPassword
            case CreateAccountEmail => h == if env.validEmail(arg) then GetTimezone else CreateAccountEmail
            case GetTimezone => h == if env.timezone(arg) == -1 then GetTimezone else AccountMenu
            case Closed => h == Closed
            case _ => true
  {
  }

  /** Logging out and deleting take the character off the list of players and lead to the menu and to the password;
      quitting ends the connection, with the character still on the list. */
  lemma {:induction false} CommandLeads(env: Env, s: State, arg: string, ans: Answers)
    requires Ready(s) && s.handler == CommandParser && NoDuplicates(s.firstPlayer)
    ensures var s', c := Next(env, s, Line(arg, ans)), env.command(arg);
            && s'.handler == (if c == Logout then AccountMenu else if c == Delete then ConfirmDeleteChar
                              else if c == Quit then Closed else CommandParser)
            && s'.live == s.live
            && (forall x :: x in s'.firstPlayer <==>
                  x in s.firstPlayer && (c == Logout || c == Delete ==> x != s.account.value.playing.value.ref))
            && (c != Save ==> s'.accounts == s.accounts)
  {
    UnlinkedOnly(s.firstPlayer, s.account.value.playing.value.ref);
    hide Unlinked;
  }

  // ---------------------------------------------------------------- what is stored

  /** rest is what is left of the list, in its order, without the characters with the id: its i-th entry is the entry
      of the list at place f[i]. */
  ghost predicate IsWithout(players: seq<AccountPlayer>, id: int, rest: seq<AccountPlayer>, f: seq<nat>) {
    && |f| == |rest|
    && (forall i :: 0 <= i < |f| ==> f[i] < |players| && rest[i] == players[f[i]] && players[f[i]].charId != id)
    && (forall i, j :: 0 <= i < j < |f| ==> f[i] < f[j])
    && (forall k :: 0 <= k < |players| && players[k].charId != id ==> k in f)
  }

  lemma {:induction false} WithoutKeepsOrder(players: seq<AccountPlayer>, id: int) returns (f: seq<nat>)
    ensures IsWithout(players, id, WithoutPlayer(players, id), f)
  {
    f := [];
    if players != [] {
      var n := |players| - 1;
      var g := WithoutKeepsOrder(players[..n], id);
      WithoutLast(players[..n], players[n], id);
      hide WithoutPlayer, IsWithout;
      assert players == players[..n] + [players[n]];
      f := if players[n].charId == id then g else g + [n];
      OneMoreKept(players[..n], players[n], id, WithoutPlayer(players[..n], id), g);
    }
  }

  lemma {:induction false} OneMoreKept(players: seq<AccountPlayer>, p: AccountPlayer, id: int, rest: seq<AccountPlayer>,
      f: seq<nat>)
    requires IsWithout(players, id, rest, f)
    ensures if p.charId == id then IsWithout(players + [p], id, rest, f)
            else IsWithout(players + [p], id, rest + [p], f + [|players|])
  {
    var all := players + [p];
    if p.charId == id {
      forall k | 0 <= k < |all| && all[k].charId != id
        ensures k in f
      {
        assert all[k] == players[k];
      }
    } else {
      forall k | 0 <= k < |all| && all[k].charId != id
        ensures k in f + [|players|]
      {
        if k < |players| {
          assert all[k] == players[k];
        }
      }
    }
  }

  lemma {:induction false} WithoutLast(players: seq<AccountPlayer>, p: AccountPlayer, id: int)
    ensures WithoutPlayer(players + [p], id) == WithoutPlayer(players, id) + if p.charId == id then [] else [p]
  {
    if players == [] {
      assert players + [p] == [p] && [p][1..] == [];
    } else {
      assert (players + [p])[1..] == players[1..] + [p];
      WithoutLast(players[1..], p, id);
    }
  }

  /** Deleting a character with the account's password: if the write takes effect, a character is stored for the
      account afterwards exactly if it was stored before and its id is not the one of the character that was played.
      The order stays, and so does everything else that is stored. */
  lemma {:induction false} DeletesThatCharacter(env: Env, s: State, arg: string, ans: Answers)
    returns (f: seq<nat>)
    requires Ready(s) && s.handler == ConfirmDeleteChar && arg != "" && ans.stores
    requires s.account.value.login in s.accounts
    requires s.account.value.password == env.crypt(arg, s.account.value.login)
    ensures var s', login, id := Next(env, s, Line(arg, ans)), s.account.value.login, s.account.value.playing.value.id;
            && s'.accounts.Keys == s.accounts.Keys
            && (forall l :: l in s.accounts && l != login ==> s'.accounts[l] == s.accounts[l])
            && s'.accounts[login].password == s.accounts[login].password
            && s'.accounts[login].autologinId == s.accounts[login].autologinId
            && (forall p :: p in s'.accounts[login].players <==> p in s.accounts[login].players && p.charId != id)
            && IsWithout(s.accounts[login].players, id, s'.accounts[login].players, f)
  {
    var s', login, id := Next(env, s, Line(arg, ans)), s.account.value.login, s.account.value.playing.value.id;
    var before := s.accounts[login].players;
    f := WithoutKeepsOrder(before, id);
    assert s'.accounts == s.accounts[login := s.accounts[login].(players := WithoutPlayer(before, id))];
    hide WithoutPlayer, Next;
    var after := s'.accounts[login].players;
    forall p
      ensures p in after <==> p in before && p.charId != id
    {
      if p in after {
        var i :| 0 <= i < |after| && after[i] == p;
        assert after[i] == before[f[i]];
      }
      if p in before && p.charId != id {
        var k :| 0 <= k < |before| && before[k] == p;
        assert k in f;
        var i :| 0 <= i < |f| && f[i] == k;
        assert after[i] == before[f[i]];
      }
    }
  }

  /** Without the password or without the write nothing that is stored changes; without the password the character
      plays on, and with it the character is taken off the list of players and freed. */
  lemma {:induction false} DeletionNeedsPassword(env: Env, s: State, arg: string, ans: Answers)
    requires Ready(s) && s.handler == ConfirmDeleteChar && NoDuplicates(s.firstPlayer)
    ensures var s', a := Next(env, s, Line(arg, ans)), s.account.value;
            var right := arg != "" && a.password == env.crypt(arg, a.login);
            && (!right || !ans.stores || a.login !in s.accounts ==> s'.accounts == s.accounts)
            && (!right ==> s' == s.(handler := CommandParser, firstPlayer := [a.playing.value.ref] + s.firstPlayer))
            && (right ==> && s'.handler == AccountMenu && s'.account == s.account
                          && s'.live == s.live - {a.playing.value.ref}
                          && (forall x :: x in s'.firstPlayer <==> x in s.firstPlayer && x != a.playing.value.ref))
  {
    UnlinkedOnly(s.firstPlayer, s.account.value.playing.value.ref);
    hide Unlinked, WithoutPlayer;
  }

  /** Deleting the account: with its password and a write that takes effect, no login but the account's is affected,
      and that one is gone; otherwise nothing that is stored changes. */
  lemma {:induction false} DeletesThatAccount(env: Env, s: State, arg: string, ans: Answers)
    requires Ready(s) && s.handler == ConfirmAccountDelete
    ensures var s', a := Next(env, s, Line(arg, ans)), s.account.value;
            var right := a.password == env.crypt(arg, a.login);
            && s'.handler == (if right then Closed else AccountMenu)
            && (forall l :: l in s'.accounts <==> l in s.accounts && (right && ans.stores ==> l != a.login))
            && (forall l :: l in s'.accounts ==> s'.accounts[l] == s.accounts[l])
  {
    hide Unlinked;
  }

  lemma {:induction false} FoundById(players: seq<AccountPlayer>, id: int)
    ensures PlayerWithId(players, id).Some? <==> exists p :: p in players && p.charId == id
  {
    if players != [] {
      FoundById(players[1..], id);
      assert players == [players[0]] + players[1..];
    }
  }

  /** Saving stores the account's password and adds its character behind the stored ones unless one of them has its
      id; a new character first gets the id of its row. Nothing else that is stored changes, and nothing at all
      without the write. */
  lemma {:induction false} SavesThatCharacter(env: Env, s: State, arg: string, ans: Answers)
    requires Ready(s) && s.handler == CommandParser && env.command(arg) == Save
    ensures var s', a := Next(env, s, Line(arg, ans)), s.account.value;
            var ch := a.playing.value;
            var id := if ch.id == 0 then ans.row else ch.id;
            var was := if a.login in s.accounts then s.accounts[a.login].players else [];
            if !ans.stores then s' == s
            else && s'.accounts.Keys == s.accounts.Keys + {a.login}
                 && (forall l :: l in s.accounts && l != a.login ==> s'.accounts[l] == s.accounts[l])
                 && s'.accounts[a.login].password == a.password && s'.accounts[a.login].autologinId == a.autologinId
                 && s'.accounts[a.login].players ==
                      (if exists p :: p in was && p.charId == id then was else was + [AccountPlayer(id, ch.name)])
                 && s'.account == Some(a.(playing := Some(ch.(id := id))))
  {
    var a := s.account.value;
    var ch := a.playing.value;
    var was := if a.login in s.accounts then s.accounts[a.login].players else [];
    FoundById(was, if ch.id == 0 then ans.row else ch.id);
    hide PlayerWithId;
  }

  /** The connection has a character in memory: the address is of one that it made itself and that nobody freed. */
  predicate Owns(s: State) {
    Plays(s) && !s.dangling
  }

  predicate Linked(s: State) {
    Owns(s) && Address(s) in s.firstPlayer
  }

  /** The list of players names each character once, and only characters in memory. */
  predicate GoodList(firstPlayer: seq<nat>, live: set<nat>) {
    NoDuplicates(firstPlayer) && forall x :: x in firstPlayer ==> x in live
  }

  /** How much of a new character is there when a handler waits for the next choice. */
  predicate Complete(ch: Character, h: Handler) {
    && (h in {GetRace, GetClass, CommandParser, ConfirmDeleteChar} ==> ch.sex.Some? && ch.sex.value >= 0)
    && (h in {GetClass, CommandParser, ConfirmDeleteChar} ==> ch.race.Some?)
    && (h in {CommandParser, ConfirmDeleteChar} ==> ch.classes != [])
  }

  /** A new character is as complete as the handler says. */
  predicate SoundCharacter(s: State) {
    && (s.handler in {GetCharSex, GetRace, GetClass} ==> Plays(s) && s.account.value.playing.value.created)
    && (Plays(s) && s.account.value.playing.value.created ==>
          && Complete(s.account.value.playing.value, s.handler)
          && 3 <= |s.account.value.playing.value.name| <= 12)
  }

  /** The address that the account keeps is in use while the connection owns it, which it does wherever a handler
      uses the character. */
  predicate SoundAddress(s: State) {
    && (Owns(s) ==> Address(s) in s.live)
    && (s.dangling ==> Plays(s))
    && (s.handler in {GetCharSex, GetRace, GetClass, CommandParser, ConfirmDeleteChar} ==> Owns(s))
  }

  /** Safety of single states: the list of players holds this connection's character once while it plays and not
      at all otherwise, and a new character is as complete as its handler says. */
  predicate Safe(s: State) {
    && Ready(s) && GoodList(s.firstPlayer, s.live) && SoundCharacter(s) && SoundAddress(s)
    && (s.handler != Closed ==> (Linked(s) <==> s.handler == CommandParser))
  }

  /** A character gets an address that is not in use; and what the others do, they do to their own characters. */
  predicate Legal(s: State, e: Event) {
    match e
    case Line(_, ans) => ans.at !in s.live
    case Autosave(_) => true
    case Hangup(_) => true
    case Others(firstPlayer, live, _) =>
      && GoodList(firstPlayer, live)
      && (Owns(s) ==> Address(s) in live && (Address(s) in firstPlayer <==> Address(s) in s.firstPlayer))
  }

  lemma {:induction false} LinksOnce(s: State)
    requires GoodList(s.firstPlayer, s.live) && Owns(s) && Address(s) in s.live && !Linked(s)
    ensures GoodList(Entered(s).firstPlayer, s.live) && Linked(Entered(s))
  {
  }

  lemma {:induction false} UnlinksOwn(s: State)
    requires GoodList(s.firstPlayer, s.live) && Plays(s)
    ensures GoodList(Left(s).firstPlayer, s.live) && !Linked(Left(s))
    ensures GoodList(Extracted(s).firstPlayer, Extracted(s).live)
  {
    UnlinkedOnly(s.firstPlayer, Address(s));
  }

  lemma {:induction false} LineIsSafe(env: Env, s: State, arg: string, ans: Answers)
    requires Safe(s) && ans.at !in s.live
    ensures Safe(OnLine(env, s, arg, ans))
  {
    hide LooksNumeric, Atoi, GoodCharName, Unlinked, SexOf;
    match s.handler {
      case GetAccountPassword => PasswordIsSafe(env, s, arg, ans);
      case AccountMenu => MenuIsSafe(s, arg, ans);
      case CreateNewChar => CreationIsSafe(s, arg, ans.at);
      case GetClass => ClassIsSafe(env, s, arg);
      case CommandParser => LeavingIsSafe(env, s, arg, ans);
      case ConfirmDeleteChar => LeavingIsSafe(env, s, arg, ans);
      case ConfirmAccountDelete => LeavingIsSafe(env, s, arg, ans);
      case _ =>
    }
  }

  lemma {:induction false} PasswordIsSafe(env: Env, s: State, arg: string, ans: Answers)
    requires Safe(s) && s.handler == GetAccountPassword && ans.at !in s.live
    ensures Safe(OnAccountPassword(env, s, arg, ans))
  {
    var p := PlayerWithId(s.account.value.players, s.account.value.autologinId);
    hide PlayerWithId;
    if p.Some? {
      LinksOnce(Load(s, p.value, ans.at));
    }
  }

  lemma {:induction false} MenuIsSafe(s: State, arg: string, ans: Answers)
    requires Safe(s) && s.handler == AccountMenu && ans.at !in s.live
    ensures Safe(OnAccountMenu(s, arg, ans))
  {
    var num, players := Atoi(arg), s.account.value.players;
    hide LooksNumeric, Atoi;
    if 1 <= num <= |players| {
      LinksOnce(Load(s, players[num - 1], ans.at));
    }
  }

  lemma {:induction false} LeavingIsSafe(env: Env, s: State, arg: string, ans: Answers)
    requires Safe(s) && s.handler in {CommandParser, ConfirmDeleteChar, ConfirmAccountDelete}
    ensures Safe(OnLine(env, s, arg, ans))
  {
    hide Unlinked;
    if Plays(s) {
      UnlinksOwn(s);
    }
    if s.handler == ConfirmDeleteChar {
      LinksOnce(s);
    }
  }

  lemma {:induction false} CreationIsSafe(s: State, arg: string, at: nat)
    requires Safe(s) && s.handler == CreateNewChar && at !in s.live
    ensures Safe(OnCreateChar(s, arg, at))
  {
    assert GoodCharName(arg) ==> |Capitalize(arg)| == |arg|;
    hide Capitalize;
  }

  lemma {:induction false} ClassIsSafe(env: Env, s: State, arg: string)
    requires Safe(s) && s.handler == GetClass
    ensures Safe(OnClass(env, s, arg))
  {
    var ch := s.account.value.playing.value;
    LinksOnce(WithPlaying(s, Some(ch.(classes := ch.classes + [env.class_(arg)]))));
  }

  /** Saving changes nothing but the stored accounts and the row of a new character. */
  lemma {:induction false} SavingIsSafe(s: State, ans: Answers)
    requires Safe(s)
    ensures Safe(SavedInPlay(s, ans))
    ensures Plays(s) ==> Plays(SavedInPlay(s, ans)) && Address(SavedInPlay(s, ans)) == Address(s)
    ensures SavedInPlay(s, ans).firstPlayer == s.firstPlayer && SavedInPlay(s, ans).live == s.live
  {
    hide SavedPlayers;
  }

  lemma {:induction false} NextIsSafe(env: Env, s: State, e: Event)
    requires Safe(s) && Legal(s, e)
    ensures Safe(Next(env, s, e))
  {
    match e
    case Line(arg, ans) => LineIsSafe(env, s, arg, ans);
    case Autosave(ans) => SavingIsSafe(s, ans);
    case Hangup(ans) =>
      SavingIsSafe(s, ans);
      hide Saved;
      if Plays(s) {
        UnlinksOwn(SavedInPlay(s, ans));
      }
    case Others(_, _, _) =>
  }

  ghost predicate LegalRun(env: Env, start: State, events: seq<Event>, n: nat)
    requires Ready(start) && n <= |events|
  {
    forall k :: 0 <= k < n ==> Legal(After(env, start, events, k), events[k])
  }

  /** Every state of a run is safe, as long as the others leave this connection's character alone. */
  lemma {:induction false} RunIsSafe(env: Env, start: State, events: seq<Event>, n: nat)
    requires Safe(start) && n <= |events| && LegalRun(env, start, events, n)
    ensures Safe(After(env, start, events, n))
  {
    assert Ready(start);
    hide Safe, Legal, Next, Ready;
    if n == 0 {
      assert After(env, start, events, n) == start;
    } else {
      var s := After(env, start, events, n - 1);
      assert After(env, start, events, n) == Next(env, s, events[n - 1]);
      hide After;
      RunIsSafe(env, start, events, n - 1);
      NextIsSafe(env, s, events[n - 1]);
    }
  }

  /** A player who quits is not saved: the handler is gone when the connection ends. One whose connection breaks is. */
  lemma {:induction false} QuitIsNotSaved(env: Env, s: State, arg: string, ans: Answers, last: Answers)
    requires Ready(s) && s.handler == CommandParser && env.command(arg) == Quit
    ensures Next(env, Next(env, s, Line(arg, ans)), Hangup(last)).accounts == s.accounts
    ensures Next(env, s, Hangup(last)).accounts == Saved(s, last).accounts
  {
    hide Unlinked, SavedPlayers;
  }

  // ---------------------------------------------------------------- passwords

  /** The handlers behind the login: the account menu, the creation of a character and play. */
  predicate Privileged(h: Handler) {
    h in {AccountMenu, CreateNewChar, GetCharSex, GetRace, GetClass, CommandParser, ConfirmDeleteChar,
        ConfirmAccountDelete}
  }

  predicate LineAt(env: Env, start: State, events: seq<Event>, k: nat, h: Handler, login: string)
    requires Ready(start)
  {
    && k < |events| && events[k].Line?
    && After(env, start, events, k).handler == h
    && After(env, start, events, k).account.Some? && After(env, start, events, k).account.value.login == login
  }

  /** Line m named an account, which had this password or was not stored. */
  predicate NamedAt(env: Env, start: State, events: seq<Event>, m: nat, login: string, stored: Option<string>)
    requires Ready(start)
  {
    && m < |events| && events[m].Line? && events[m].arg == login != ""
    && var s := After(env, start, events, m);
       && s.handler == GetAccountName
       && stored == if login in s.accounts then Some(s.accounts[login].password) else None
  }

  /** No other account was named from line m up to the state after n events. */
  predicate LastName(env: Env, start: State, events: seq<Event>, m: nat, n: nat)
    requires Ready(start) && n <= |events|
  {
    forall i :: m < i <= n ==> After(env, start, events, i).handler != GetAccountName
  }

  /** Line k gave the password that was stored for the account when line m named it. */
  predicate GavePassword(env: Env, start: State, events: seq<Event>, m: nat, k: nat, login: string, password: string)
    requires Ready(start)
  {
    && m < k && NamedAt(env, start, events, m, login, Some(password))
    && LineAt(env, start, events, k, GetAccountPassword, login)
    && LastName(env, start, events, m, k)
    && env.crypt(events[k].arg, login) == password
  }

  /** Line j chose a password of at least six characters. */
  predicate ChosePassword(env: Env, start: State, events: seq<Event>, j: nat, login: string, password: string)
    requires Ready(start)
  {
    && LineAt(env, start, events, j, CreateAccountPassword, login)
    && |events[j].arg| >= 6 && env.crypt(events[j].arg, login) == password
  }

  /** Line k repeated the password that line j, the line before it, had chosen for an account that was not stored
      when line m named it. */
  predicate ConfirmedPassword(env: Env, start: State, events: seq<Event>, m: nat, j: nat, k: nat, login: string,
      password: string)
    requires Ready(start)
  {
    && m < j < k && NamedAt(env, start, events, m, login, None)
    && ChosePassword(env, start, events, j, login, password)
    && LineAt(env, start, events, k, ConfirmAccountPassword, login)
    && LastName(env, start, events, m, k)
    && (forall i :: j < i < k ==> !events[i].Line?)
    && env.crypt(events[k].arg, login) == password
  }

  /** The password was given, and no other account has been named since. */
  predicate EnteredBy(env: Env, start: State, events: seq<Event>, m: nat, k: nat, n: nat, login: string,
      password: string)
    requires Ready(start) && n <= |events|
  {
    m < k < n && GavePassword(env, start, events, m, k, login, password) && LastName(env, start, events, m, n)
  }

  /** The password was chosen and confirmed, and no other account has been named since. */
  predicate CreatedBy(env: Env, start: State, events: seq<Event>, m: nat, j: nat, k: nat, n: nat, login: string,
      password: string)
    requires Ready(start) && n <= |events|
  {
    && m < j < k < n && ConfirmedPassword(env, start, events, m, j, k, login, password)
    && LastName(env, start, events, m, n)
  }

  ghost predicate Entitled(env: Env, start: State, events: seq<Event>, n: nat, login: string, password: string)
    requires Ready(start) && n <= |events|
  {
    || (exists m: nat, k: nat :: EnteredBy(env, start, events, m, k, n, login, password))
    || (exists m: nat, j: nat, k: nat :: CreatedBy(env, start, events, m, j, k, n, login, password))
  }

  ghost predicate Named(env: Env, start: State, events: seq<Event>, n: nat, login: string, stored: Option<string>)
    requires Ready(start) && n <= |events|
  {
    exists m :: 0 <= m < n && NamedAt(env, start, events, m, login, stored) && LastName(env, start, events, m, n)
  }

  /** The password that waits for its confirmation was chosen on the last line. */
  ghost predicate Chosen(env: Env, start: State, events: seq<Event>, n: nat, login: string, password: string)
    requires Ready(start) && n <= |events|
  {
    exists m: nat, j: nat :: ChosenOn(env, start, events, m, j, n, login, password)
  }

  predicate ChosenOn(env: Env, start: State, events: seq<Event>, m: nat, j: nat, n: nat, login: string,
      password: string)
    requires Ready(start) && n <= |events|
  {
    && m < j < n && NamedAt(env, start, events, m, login, None) && LastName(env, start, events, m, n)
    && ChosePassword(env, start, events, j, login, password)
    && forall i :: j < i < n ==> !events[i].Line?
  }

  /** The handlers between the password and the menu, and those behind the login. */
  predicate Behind(h: Handler) {
    h in {CreateAccountEmail, GetTimezone} || Privileged(h)
  }

  /** What the names and passwords so far say about a state after n events. */
  ghost predicate Accounted(env: Env, start: State, events: seq<Event>, n: nat, s: State)
    requires Ready(start) && n <= |events|
  {
    s.account.Some? ==>
      var login, password := s.account.value.login, s.account.value.password;
      && (s.handler == GetAccountPassword ==> Named(env, start, events, n, login, Some(password)))
      && (s.handler in {CreateAccount, CreateAccountPassword} ==> Named(env, start, events, n, login, None))
      && (s.handler == ConfirmAccountPassword ==> Chosen(env, start, events, n, login, password))
      && (Behind(s.handler) ==> Entitled(env, start, events, n, login, password))
  }

  lemma {:induction false} LastNameNext(env: Env, start: State, events: seq<Event>, m: nat, n: nat)
    requires Ready(start) && n < |events| && LastName(env, start, events, m, n)
    requires After(env, start, events, n + 1).handler != GetAccountName
    ensures LastName(env, start, events, m, n + 1)
  {
    hide After;
  }

  lemma {:induction false} LastNameFirst(env: Env, start: State, events: seq<Event>, n: nat)
    requires Ready(start) && n <= |events|
    ensures LastName(env, start, events, n, n)
  {
  }

  lemma {:induction false} EntitledLater(env: Env, start: State, events: seq<Event>, n: nat, login: string,
      password: string)
    requires Ready(start) && n < |events| && Entitled(env, start, events, n, login, password)
    requires After(env, start, events, n + 1).handler != GetAccountName
    ensures Entitled(env, start, events, n + 1, login, password)
  {
    hide After, LastName, GavePassword, ConfirmedPassword;
    if m: nat, k: nat :| EnteredBy(env, start, events, m, k, n, login, password) {
      LastNameNext(env, start, events, m, n);
      assert EnteredBy(env, start, events, m, k, n + 1, login, password);
    } else {
      var m: nat, j: nat, k: nat :| CreatedBy(env, start, events, m, j, k, n, login, password);
      LastNameNext(env, start, events, m, n);
      assert CreatedBy(env, start, events, m, j, k, n + 1, login, password);
    }
  }

  lemma {:induction false} NamedLater(env: Env, start: State, events: seq<Event>, n: nat, login: string,
      stored: Option<string>)
    requires Ready(start) && n < |events| && Named(env, start, events, n, login, stored)
    requires After(env, start, events, n + 1).handler != GetAccountName
    ensures Named(env, start, events, n + 1, login, stored)
  {
    hide After, LastName, NamedAt;
    var m :| 0 <= m < n && NamedAt(env, start, events, m, login, stored) && LastName(env, start, events, m, n);
    LastNameNext(env, start, events, m, n);
  }

  lemma {:induction false} ChosenLater(env: Env, start: State, events: seq<Event>, n: nat, login: string,
      password: string)
    requires Ready(start) && n < |events| && Chosen(env, start, events, n, login, password) && !events[n].Line?
    requires After(env, start, events, n + 1).handler != GetAccountName
    ensures Chosen(env, start, events, n + 1, login, password)
  {
    hide After, LastName, NamedAt, ChosePassword;
    var m: nat, j: nat :| ChosenOn(env, start, events, m, j, n, login, password);
    LastNameNext(env, start, events, m, n);
    assert ChosenOn(env, start, events, m, j, n + 1, login, password);
  }

  lemma {:induction false} ChosenIsNamed(env: Env, start: State, events: seq<Event>, n: nat, login: string,
      password: string)
    requires Ready(start) && n <= |events| && Chosen(env, start, events, n, login, password)
    ensures Named(env, start, events, n, login, None)
  {
    hide After, LastName, NamedAt, ChosePassword;
  }

  /** A line at the password: the right one leads behind it. */
  lemma {:induction false} AccountOfPassword(env: Env, s: State, e: Event)
    requires Ready(s) && e.Line? && s.handler == GetAccountPassword
    ensures var s', a := Next(env, s, e), s.account.value;
            && s'.account.Some? && s'.account.value.login == a.login && s'.account.value.password == a.password
            && (s'.handler in {GetAccountPassword, Closed} || (Behind(s'.handler) && Matches(env, a, e.arg)))
  {
    hide Unlinked, PlayerWithId;
  }

  /** A line while an account is created. */
  lemma {:induction false} AccountOfChoice(env: Env, s: State, e: Event)
    requires Ready(s) && e.Line? && s.handler in {CreateAccount, CreateAccountPassword, ConfirmAccountPassword}
    ensures var s', a := Next(env, s, e), s.account.value;
            && s'.account.Some? && s'.account.value.login == a.login
            && match s.handler
               case CreateAccount => s'.handler in {CreateAccount, CreateAccountPassword, GetAccountName}
               case CreateAccountPassword =>
                 s'.handler == CreateAccountPassword
                 || (s'.handler == ConfirmAccountPassword && |e.arg| >= 6
                     && s'.account.value.password == env.crypt(e.arg, a.login))
               case _ =>
                 && s'.account == s.account
                 && s'.handler == if Matches(env, a, e.arg) then CreateAccountEmail else CreateAccountPassword
  {
  }

  predicate SameAccount(s: State, s': State) {
    && s.account.Some? && s'.account.Some? && s'.account.value.login == s.account.value.login
    && s'.account.value.password == s.account.value.password
  }

  lemma {:induction false} AccountOfMenu(env: Env, s: State, arg: string, ans: Answers)
    requires Ready(s) && s.handler in {CreateAccountEmail, GetTimezone, AccountMenu, CreateNewChar}
    ensures var s' := OnLine(env, s, arg, ans); SameAccount(s, s') && (s'.handler == Closed || Behind(s'.handler))
  {
    hide LooksNumeric, Atoi, GoodCharName, Capitalize;
  }

  lemma {:induction false} AccountOfCreation(env: Env, s: State, arg: string, ans: Answers)
    requires Ready(s) && s.handler in {GetCharSex, GetRace, GetClass}
    ensures var s' := OnLine(env, s, arg, ans); SameAccount(s, s') && Behind(s'.handler)
  {
    hide SexOf;
  }

  lemma {:induction false} AccountOfPlay(env: Env, s: State, arg: string, ans: Answers)
    requires Ready(s) && s.handler in {CommandParser, ConfirmDeleteChar, ConfirmAccountDelete}
    ensures var s' := OnLine(env, s, arg, ans); SameAccount(s, s') && (s'.handler == Closed || Behind(s'.handler))
  {
    hide Unlinked, SavedPlayers, WithoutPlayer;
  }

  /** Behind the password the account stays the same, and the handlers stay behind it. */
  lemma {:induction false} AccountOfBehind(env: Env, s: State, e: Event)
    requires Ready(s) && e.Line? && Behind(s.handler)
    ensures var s' := Next(env, s, e); SameAccount(s, s') && (s'.handler == Closed || Behind(s'.handler))
  {
    hide OnLine, SameAccount, Ready;
    if s.handler in {CreateAccountEmail, GetTimezone, AccountMenu, CreateNewChar} {
      AccountOfMenu(env, s, e.arg, e.ans);
    } else if s.handler in {GetCharSex, GetRace, GetClass} {
      AccountOfCreation(env, s, e.arg, e.ans);
    } else {
      AccountOfPlay(env, s, e.arg, e.ans);
    }
  }

  lemma {:induction false} BehindIsElsewhere(h: Handler)
    requires Behind(h) || h == Closed
    ensures h != GetAccountName && h != GetAccountPassword && h != ConfirmAccountPassword
    ensures h !in {CreateAccount, CreateAccountPassword}
  {
  }

  lemma {:induction false} AccountOfName(env: Env, s: State, e: Event)
    requires Ready(s) && e.Line? && s.handler == GetAccountName
    ensures var s' := Next(env, s, e);
            if e.arg == "" then s' == s
            else
              && s'.account.Some? && s'.account.value.login == e.arg
              && if e.arg in s.accounts
                 then s'.handler == GetAccountPassword && s'.account.value.password == s.accounts[e.arg].password
                 else s'.handler == CreateAccount
  {
  }

  /** Other events leave the handler and what the passwords are about alone, or end the connection. */
  lemma {:induction false} AccountOfOthers(env: Env, s: State, e: Event)
    requires Ready(s) && !e.Line?
    ensures var s' := Next(env, s, e);
            s'.account.None? || (s'.handler == s.handler && SameAccount(s, s'))
  {
    hide SavedPlayers, Unlinked;
  }

  lemma {:induction false} AccountedName(env: Env, start: State, events: seq<Event>, n: nat, s: State, s': State)
    requires Ready(start) && n < |events| && events[n].Line?
    requires s == After(env, start, events, n) && s.handler == GetAccountName
    requires s' == Next(env, s, events[n]) == After(env, start, events, n + 1)
    ensures Accounted(env, start, events, n + 1, s')
  {
    AccountOfName(env, s, events[n]);
    hide After, Next, Entitled, Chosen;
    var arg := events[n].arg;
    if arg != "" {
      LastNameFirst(env, start, events, n);
      LastNameNext(env, start, events, n, n);
      assert NamedAt(env, start, events, n, arg, if arg in s.accounts then Some(s.accounts[arg].password) else None);
    }
  }

  lemma {:induction false} AccountedPassword(env: Env, start: State, events: seq<Event>, n: nat, s: State, s': State)
    requires Ready(start) && n < |events| && events[n].Line? && Accounted(env, start, events, n, s)
    requires s == After(env, start, events, n) && s.handler == GetAccountPassword && s.account.Some?
    requires s' == Next(env, s, events[n]) == After(env, start, events, n + 1)
    ensures Accounted(env, start, events, n + 1, s')
  {
    hide After, Next, Chosen, Entitled, Named, Ready, Behind, Matches;
    AccountOfPassword(env, s, events[n]);
    var login, password := s.account.value.login, s.account.value.password;
    assert Named(env, start, events, n, login, Some(password));
    hide Accounted;
    if s'.handler == Closed {
      NotAccounted(env, start, events, n + 1, s');
    } else if s'.handler == GetAccountPassword {
      NamedLater(env, start, events, n, login, Some(password));
      AccountedNamed(env, start, events, n + 1, s');
    } else {
      AccountedEntry(env, start, events, n, s, s');
    }
  }

  lemma {:induction false} AccountedNamed(env: Env, start: State, events: seq<Event>, n: nat, s: State)
    requires Ready(start) && n <= |events| && s.handler == GetAccountPassword && s.account.Some?
    requires Named(env, start, events, n, s.account.value.login, Some(s.account.value.password))
    ensures Accounted(env, start, events, n, s)
  {
    NameIsNotBehind();
    hide Named, Chosen, Entitled, Behind;
  }

  lemma {:induction false} AccountedEntry(env: Env, start: State, events: seq<Event>, n: nat, s: State, s': State)
    requires Ready(start) && n < |events| && events[n].Line? && s == After(env, start, events, n)
    requires s.handler == GetAccountPassword && s.account.Some? && Matches(env, s.account.value, events[n].arg)
    requires Named(env, start, events, n, s.account.value.login, Some(s.account.value.password))
    requires s' == After(env, start, events, n + 1) && Behind(s'.handler) && SameAccount(s, s')
    ensures Accounted(env, start, events, n + 1, s')
  {
    hide After, Next, Entitled, Named, Ready, Behind, Accounted;
    assert LineAt(env, start, events, n, GetAccountPassword, s.account.value.login);
    assert env.crypt(events[n].arg, s.account.value.login) == s.account.value.password;
    assert s'.account == Some(s'.account.value) && s'.account.value.login == s.account.value.login
      && s'.account.value.password == s.account.value.password;
    hide *;
    BehindIsElsewhere(s'.handler);
    NamedIsEntitled(env, start, events, n, s.account.value.login, s.account.value.password);
    AccountedEntitled(env, start, events, n + 1, s');
  }

  lemma {:induction false} NotAccounted(env: Env, start: State, events: seq<Event>, n: nat, s: State)
    requires Ready(start) && n <= |events| && s.handler in {GetAccountName, Closed}
    ensures Accounted(env, start, events, n, s)
  {
    hide Named, Chosen, Entitled;
  }

  lemma {:induction false} NamedIsEntitled(env: Env, start: State, events: seq<Event>, n: nat, login: string,
      password: string)
    requires Ready(start) && n < |events| && events[n].Line? && Named(env, start, events, n, login, Some(password))
    requires LineAt(env, start, events, n, GetAccountPassword, login) && env.crypt(events[n].arg, login) == password
    requires After(env, start, events, n + 1).handler != GetAccountName
    ensures Entitled(env, start, events, n + 1, login, password)
  {
    hide After, LastName, NamedAt, LineAt;
    var m :| 0 <= m < n && NamedAt(env, start, events, m, login, Some(password)) && LastName(env, start, events, m, n);
    LastNameNext(env, start, events, m, n);
    assert GavePassword(env, start, events, m, n, login, password);
    assert EnteredBy(env, start, events, m, n, n + 1, login, password);
  }

  lemma {:induction false} AccountedChoice(env: Env, start: State, events: seq<Event>, n: nat, s: State, s': State)
    requires Ready(start) && n < |events| && events[n].Line? && Accounted(env, start, events, n, s)
    requires s == After(env, start, events, n) && s.handler in {CreateAccount, CreateAccountPassword}
    requires s.account.Some? && s' == Next(env, s, events[n]) == After(env, start, events, n + 1)
    ensures Accounted(env, start, events, n + 1, s')
  {
    AccountOfChoice(env, s, events[n]);
    var login := s.account.value.login;
    assert Named(env, start, events, n, login, None);
    NameIsNotBehind();
    hide After, Next, Entitled, Named, Chosen, Ready, Behind;
    if s'.handler == ConfirmAccountPassword {
      NamedIsChosen(env, start, events, n, login, s'.account.value.password);
    } else if s'.handler == GetAccountName {
      NotAccounted(env, start, events, n + 1, s');
    } else {
      NamedLater(env, start, events, n, login, None);
    }
  }

  lemma {:induction false} NamedIsChosen(env: Env, start: State, events: seq<Event>, n: nat, login: string,
      password: string)
    requires Ready(start) && n < |events| && events[n].Line? && Named(env, start, events, n, login, None)
    requires ChosePassword(env, start, events, n, login, password)
    requires After(env, start, events, n + 1).handler != GetAccountName
    ensures Chosen(env, start, events, n + 1, login, password)
  {
    hide After, LastName, NamedAt, ChosePassword;
    var m :| 0 <= m < n && NamedAt(env, start, events, m, login, None) && LastName(env, start, events, m, n);
    LastNameNext(env, start, events, m, n);
    assert ChosenOn(env, start, events, m, n, n + 1, login, password);
  }

  lemma {:induction false} AccountedConfirm(env: Env, start: State, events: seq<Event>, n: nat, s: State, s': State)
    requires Ready(start) && n < |events| && events[n].Line? && Accounted(env, start, events, n, s)
    requires s == After(env, start, events, n) && s.handler == ConfirmAccountPassword && s.account.Some?
    requires s' == Next(env, s, events[n]) == After(env, start, events, n + 1)
    ensures Accounted(env, start, events, n + 1, s')
  {
    AccountOfChoice(env, s, events[n]);
    hide After, Next, LastName;
    var login, password := s.account.value.login, s.account.value.password;
    if Matches(env, s.account.value, events[n].arg) {
      var m: nat, j: nat :| ChosenOn(env, start, events, m, j, n, login, password);
      LastNameNext(env, start, events, m, n);
      hide NamedAt, ChosePassword;
      assert ConfirmedPassword(env, start, events, m, j, n, login, password);
      assert CreatedBy(env, start, events, m, j, n, n + 1, login, password);
    } else {
      ChosenIsNamed(env, start, events, n, login, password);
      NamedLater(env, start, events, n, login, None);
    }
  }

  lemma {:induction false} AccountedBehind(env: Env, start: State, events: seq<Event>, n: nat, s: State, s': State)
    requires Ready(start) && n < |events| && events[n].Line? && Accounted(env, start, events, n, s)
    requires s == After(env, start, events, n) && Behind(s.handler) && s.account.Some?
    requires s' == Next(env, s, events[n]) == After(env, start, events, n + 1)
    ensures Accounted(env, start, events, n + 1, s')
  {
    assert Entitled(env, start, events, n, s.account.value.login, s.account.value.password);
    hide After, Next, Entitled, Named, Chosen, Ready, Accounted, Behind;
    AccountOfBehind(env, s, events[n]);
    BehindIsElsewhere(s'.handler);
    EntitledLater(env, start, events, n, s.account.value.login, s.account.value.password);
    AccountedEntitled(env, start, events, n + 1, s');
  }

  lemma {:induction false} AccountedEntitled(env: Env, start: State, events: seq<Event>, n: nat, s: State)
    requires Ready(start) && n <= |events| && s.account.Some? && (s.handler == Closed || Behind(s.handler))
    requires Entitled(env, start, events, n, s.account.value.login, s.account.value.password)
    ensures Accounted(env, start, events, n, s)
  {
    BehindIsElsewhere(s.handler);
    hide Entitled, Named, Chosen, Behind;
  }

  lemma {:induction false} AccountedLine(env: Env, start: State, events: seq<Event>, n: nat, s: State, s': State)
    requires Ready(start) && n < |events| && events[n].Line? && Accounted(env, start, events, n, s)
    requires s == After(env, start, events, n) && s' == Next(env, s, events[n]) == After(env, start, events, n + 1)
    ensures Accounted(env, start, events, n + 1, s')
  {
    hide Accounted, After, Next;
    if s.handler == GetAccountName {
      AccountedName(env, start, events, n, s, s');
    } else if s.handler == Closed {
      ClosedStays(env, start, events, n, s, s');
    } else if s.handler == GetAccountPassword {
      AccountedPassword(env, start, events, n, s, s');
    } else if s.handler in {CreateAccount, CreateAccountPassword} {
      AccountedChoice(env, start, events, n, s, s');
    } else if s.handler == ConfirmAccountPassword {
      AccountedConfirm(env, start, events, n, s, s');
    } else {
      AccountedBehind(env, start, events, n, s, s');
    }
  }

  lemma {:induction false} ClosedStays(env: Env, start: State, events: seq<Event>, n: nat, s: State, s': State)
    requires Ready(start) && n < |events| && Ready(s) && s.handler == Closed && events[n].Line?
    requires s' == Next(env, s, events[n])
    ensures Accounted(env, start, events, n + 1, s')
  {
    hide Named, Chosen, Entitled;
  }

  lemma {:induction false} AccountedQuiet(env: Env, start: State, events: seq<Event>, n: nat, s: State, s': State)
    requires Ready(start) && n < |events| && !events[n].Line? && Accounted(env, start, events, n, s)
    requires s == After(env, start, events, n) && s' == Next(env, s, events[n]) == After(env, start, events, n + 1)
    ensures Accounted(env, start, events, n + 1, s')
  {
    AccountOfOthers(env, s, events[n]);
    hide After, Next, Entitled, Named, Chosen, Ready, Behind;
    if s'.account.Some? && s'.handler != GetAccountName {
      QuietKeeps(env, start, events, n, s, s');
    } else if s'.account.Some? {
      assert !Behind(GetAccountName) by {
        NameIsNotBehind();
      }
    }
  }

  lemma {:induction false} NameIsNotBehind()
    ensures !Behind(GetAccountName) && !Behind(GetAccountPassword) && !Behind(ConfirmAccountPassword)
    ensures !Behind(CreateAccount) && !Behind(CreateAccountPassword)
  {
  }

  lemma {:induction false} QuietKeeps(env: Env, start: State, events: seq<Event>, n: nat, s: State, s': State)
    requires Ready(start) && n < |events| && !events[n].Line? && Accounted(env, start, events, n, s)
    requires s' == After(env, start, events, n + 1) && s'.handler == s.handler != GetAccountName && SameAccount(s, s')
    ensures Accounted(env, start, events, n + 1, s')
  {
    hide After, Next, Entitled, Named, Chosen, Ready, Behind;
    var login, password := s.account.value.login, s.account.value.password;
    if s.handler == GetAccountPassword {
      NamedLater(env, start, events, n, login, Some(password));
    }
    if s.handler in {CreateAccount, CreateAccountPassword} {
      NamedLater(env, start, events, n, login, None);
    }
    if s.handler == ConfirmAccountPassword {
      ChosenLater(env, start, events, n, login, password);
    }
    if Behind(s.handler) {
      EntitledLater(env, start, events, n, login, password);
    }
  }

  lemma {:induction false} AlwaysAccounted(env: Env, start: State, events: seq<Event>, n: nat)
    requires IsFresh(start) && n <= |events|
    ensures Accounted(env, start, events, n, After(env, start, events, n))
  {
    hide Entitled, Named, Chosen, Next;
    if n == 0 {
      assert After(env, start, events, n) == start;
    } else {
      var s := After(env, start, events, n - 1);
      assert After(env, start, events, n) == Next(env, s, events[n - 1]);
      hide Accounted, After;
      AlwaysAccounted(env, start, events, n - 1);
      if events[n - 1].Line? {
        AccountedLine(env, start, events, n - 1, s, After(env, start, events, n));
      } else {
        AccountedQuiet(env, start, events, n - 1, s, After(env, start, events, n));
      }
    }
  }

  /** Nobody gets behind the login of an account without the password that was stored for it when it was named, or
      without having chosen a password for an account that was not stored and repeated it on the next line; and the
      password that the account keeps is that one. */
  lemma {:induction false} NoEntryWithoutPassword(env: Env, start: State, events: seq<Event>, n: nat)
    requires IsFresh(start) && n <= |events|
    ensures var s := After(env, start, events, n);
            Privileged(s.handler) ==>
              && s.account.Some?
              && Entitled(env, start, events, n, s.account.value.login, s.account.value.password)
  {
    AlwaysAccounted(env, start, events, n);
    hide Entitled, Named, Chosen, After;
  }

  lemma {:induction false} OneLastName(env: Env, start: State, events: seq<Event>, m: nat, m': nat, n: nat)
    requires Ready(start) && m < n && m' < n && n <= |events|
    requires LastName(env, start, events, m, n) && LastName(env, start, events, m', n)
    requires After(env, start, events, m).handler == GetAccountName
    requires After(env, start, events, m').handler == GetAccountName
    ensures m == m'
  {
    hide After;
  }

  /** An account that is stored when it is named is entered only with the password that is stored then. */
  lemma {:induction false} StoredNeedsItsPassword(env: Env, start: State, events: seq<Event>, m: nat, n: nat,
      login: string, password: string)
    requires IsFresh(start) && m < n <= |events|
    requires NamedAt(env, start, events, m, login, Some(password)) && LastName(env, start, events, m, n)
    ensures Privileged(After(env, start, events, n).handler) ==>
              exists k :: m < k < n && GavePassword(env, start, events, m, k, login, password)
  {
    var s := After(env, start, events, n);
    NoEntryWithoutPassword(env, start, events, n);
    hide After, LastName;
    if Privileged(s.handler) {
      var l, p := s.account.value.login, s.account.value.password;
      if a: nat, k: nat :| EnteredBy(env, start, events, a, k, n, l, p) {
        OneLastName(env, start, events, m, a, n);
        assert GavePassword(env, start, events, m, k, login, password);
      } else {
        var a: nat, j: nat, k: nat :| CreatedBy(env, start, events, a, j, k, n, l, p);
        OneLastName(env, start, events, m, a, n);
        assert false;
      }
    }
  }

  /** Line k is a wrong password. */
  predicate WrongAt(env: Env, start: State, events: seq<Event>, k: nat)
    requires Ready(start) && k < |events|
  {
    var s := After(env, start, events, k);
    events[k].Line? && s.handler == GetAccountPassword && !Matches(env, s.account.value, events[k].arg)
  }

  function WrongTries(env: Env, start: State, events: seq<Event>, n: nat): nat
    requires Ready(start) && n <= |events|
  {
    if n == 0 then 0 else WrongTries(env, start, events, n - 1) + if WrongAt(env, start, events, n - 1) then 1 else 0
  }

  /** The connection counts its wrong passwords, and the third closes it. */
  predicate Counted(s: State, wrong: nat) {
    wrong <= 3 && (wrong == 3 ==> s.handler == Closed) && s.retries == if wrong < 3 then wrong else 2
  }

  lemma {:induction false} CountedNext(env: Env, s: State, e: Event, wrong: nat)
    requires Ready(s) && Counted(s, wrong)
    ensures Counted(Next(env, s, e), wrong +
              if e.Line? && s.handler == GetAccountPassword && !Matches(env, s.account.value, e.arg) then 1 else 0)
  {
    OnlyWrongPasswordsCount(env, s, e);
    hide Next, Matches;
  }

  /** In any run there are at most three wrong passwords, and the third ends the connection, for good. */
  lemma {:induction false} ThirdWrongEnds(env: Env, start: State, events: seq<Event>, n: nat)
    requires IsFresh(start) && n <= |events|
    ensures Counted(After(env, start, events, n), WrongTries(env, start, events, n))
  {
    if n == 0 {
      assert After(env, start, events, n) == start && WrongTries(env, start, events, n) == 0;
    } else {
      var s := After(env, start, events, n - 1);
      assert After(env, start, events, n) == Next(env, s, events[n - 1]);
      ThirdWrongEnds(env, start, events, n - 1);
      hide Counted, Next, Matches;
      CountedNext(env, s, events[n - 1], WrongTries(env, start, events, n - 1));
    }
  }

  lemma {:induction false} OnlyWrongPasswordsCount(env: Env, s: State, e: Event)
    requires Ready(s)
    ensures var s' := Next(env, s, e);
            && (s.handler == Closed ==> s'.handler == Closed)
            && (if e.Line? && s.handler == GetAccountPassword && !Matches(env, s.account.value, e.arg)
                then if s.retries >= 2 then s'.handler == Closed && s'.retries == s.retries
                     else s'.retries == s.retries + 1
                else s'.retries == s.retries)
  {
    hide LooksNumeric, Atoi, GoodCharName, Unlinked, SexOf, PlayerWithId, SavedPlayers, WithoutPlayer;
  }

  // ---------------------------------------------------------------- all connections at once

  /** What a connection has for itself. */
  datatype Connection = Connection(handler: Handler, account: Option<Account>, retries: nat, dangling: bool)

  /** The server: its connections share the list of players, the addresses and the stored accounts. */
  datatype Server = Server(conns: seq<Connection>, firstPlayer: seq<nat>, live: set<nat>, accounts: map<string, Stored>)

  /** Connection i and what it shares. */
  function View(w: Server, i: nat): State
    requires i < |w.conns|
  {
    var c := w.conns[i];
    State(c.handler, c.account, c.retries, c.dangling, w.firstPlayer, w.live, w.accounts)
  }

  predicate AllReady(w: Server) {
    forall i :: 0 <= i < |w.conns| ==> Ready(View(w, i))
  }

  /** Connection i's new state, with what it made of what is shared. */
  function Put(w: Server, i: nat, s: State): (w': Server)
    requires i < |w.conns|
  {
    Server(w.conns[i := Connection(s.handler, s.account, s.retries, s.dangling)], s.firstPlayer, s.live, s.accounts)
  }

  lemma {:induction false} PutIsReady(w: Server, i: nat, s: State)
    requires i < |w.conns| && AllReady(w) && Ready(s)
    ensures AllReady(Put(w, i, s))
  {
    forall j | 0 <= j < |w.conns| ensures Ready(View(Put(w, i, s), j)) {
      assert Ready(View(w, j));
    }
  }

  /** Connection i handles one event of its own. */
  function Step(env: Env, w: Server, i: nat, e: Event): (w': Server)
    requires i < |w.conns| && AllReady(w)
    ensures AllReady(w') && |w'.conns| == |w.conns|
  {
    PutIsReady(w, i, Next(env, View(w, i), e));
    Put(w, i, Next(env, View(w, i), e))
  }

  /** Something that reaches connection i: a line or its end, and a new character gets a free address. */
  predicate Happens(w: Server, i: nat, e: Event) {
    i < |w.conns| && !e.Others? && (e.Line? ==> e.ans.at !in w.live)
  }

  predicate Apart(w: Server, i: nat, j: nat)
    requires i < |w.conns| && j < |w.conns|
  {
    Owns(View(w, i)) && Owns(View(w, j)) ==> Address(View(w, i)) != Address(View(w, j))
  }

  /** Every connection is safe, and no two of them have the same character. */
  ghost predicate AllSafe(w: Server) {
    && (forall i :: 0 <= i < |w.conns| ==> Safe(View(w, i)))
    && (forall i, j :: 0 <= i < j < |w.conns| ==> Apart(w, i, j))
  }

  /** The handlers that call extract_char: destroy_client at the end of a connection, and the two deletions. */
  predicate Frees(env: Env, s: State, e: Event) {
    && Plays(s)
    && match e
       case Line(arg, _) =>
         && ((s.handler == ConfirmDeleteChar && arg != "") || s.handler == ConfirmAccountDelete)
         && Matches(env, s.account.value, arg)
       case Autosave(_) => false
       case Hangup(_) => true
       case Others(_, _, _) => false
  }

  /** Connection i frees its character a second time, when its address belongs to somebody else. */
  ghost predicate Harms(env: Env, w: Server, i: nat, e: Event)
    requires i < |w.conns|
  {
    && Frees(env, View(w, i), e) && View(w, i).dangling
    && exists j :: 0 <= j < |w.conns| && Owns(View(w, j)) && Address(View(w, j)) == Address(View(w, i))
  }

  /** A step changes the places of no other addresses than the one it keeps and the one it makes, and the first only
      if the connection owns it or frees it. */
  ghost predicate Untouched(env: Env, s: State, e: Event, r: nat) {
    && (Plays(s) && r == Address(s) ==> s.dangling && !Frees(env, s, e))
    && (e.Line? ==> r != e.ans.at)
  }

  lemma {:induction false} TouchesItsOwn(env: Env, s: State, e: Event, r: nat)
    requires Safe(s) && !e.Others? && Untouched(env, s, e, r)
    ensures r in Next(env, s, e).firstPlayer <==> r in s.firstPlayer
    ensures r in s.live ==> r in Next(env, s, e).live
  {
    if Plays(s) && r != Address(s) {
      UnlinkedOnly(s.firstPlayer, Address(s));
    }
    if e.Line? {
      TouchesOnLine(env, s, e.arg, e.ans, r);
      hide OnLine, Safe, Untouched, Ready;
    } else {
      hide Unlinked, SavedPlayers, SoundCharacter;
    }
  }

  lemma {:induction false} TouchesOnLine(env: Env, s: State, arg: string, ans: Answers, r: nat)
    requires Safe(s) && Untouched(env, s, Line(arg, ans), r)
    requires Plays(s) && r != Address(s) ==> (r in Unlinked(s.firstPlayer, Address(s)) <==> r in s.firstPlayer)
    ensures r in OnLine(env, s, arg, ans).firstPlayer <==> r in s.firstPlayer
    ensures r in s.live ==> r in OnLine(env, s, arg, ans).live
  {
    if s.handler in {CommandParser, ConfirmDeleteChar, ConfirmAccountDelete} {
      TouchesInPlay(env, s, arg, ans, r);
    } else {
      hide LooksNumeric, Atoi, GoodCharName, Unlinked, SexOf, PlayerWithId, Capitalize;
      hide SoundCharacter, GoodList, OnCommand, OnConfirmDeleteChar, OnConfirmAccountDelete;
    }
  }

  lemma {:induction false} TouchesInPlay(env: Env, s: State, arg: string, ans: Answers, r: nat)
    requires Safe(s) && Untouched(env, s, Line(arg, ans), r)
    requires s.handler in {CommandParser, ConfirmDeleteChar, ConfirmAccountDelete}
    requires Plays(s) && r != Address(s) ==> (r in Unlinked(s.firstPlayer, Address(s)) <==> r in s.firstPlayer)
    ensures r in OnLine(env, s, arg, ans).firstPlayer <==> r in s.firstPlayer
    ensures r in s.live ==> r in OnLine(env, s, arg, ans).live
  {
    hide Unlinked, SavedPlayers, WithoutPlayer, SoundCharacter, GoodList;
  }

  lemma {:induction false} OwnsOneOrNew(env: Env, s: State, e: Event)
    requires Safe(s) && !e.Others?
    ensures var s' := Next(env, s, e);
            Owns(s') ==> (Owns(s) && Address(s') == Address(s)) || (e.Line? && Address(s') == e.ans.at)
  {
    hide LooksNumeric, Atoi, GoodCharName, Unlinked, SexOf, PlayerWithId, Capitalize, Complete;
    hide SavedPlayers, WithoutPlayer;
  }

  lemma {:induction false} FreesIt(env: Env, s: State, e: Event)
    requires Safe(s) && !e.Others? && Frees(env, s, e)
    ensures Address(s) !in Next(env, s, e).live
  {
  }

  lemma {:induction false} OthersStaySafe(env: Env, w: Server, i: nat, j: nat, e: Event)
    requires AllSafe(w) && AllReady(w) && Happens(w, i, e) && j < |w.conns| && j != i && !Harms(env, w, i, e)
    ensures Safe(View(Step(env, w, i, e), j)) && Apart(Step(env, w, i, e), i, j)
  {
    var s, v, w' := View(w, i), View(w, j), Step(env, w, i, e);
    assert Safe(s) && Safe(v) && Apart(w, if i < j then i else j, if i < j then j else i);
    NextIsSafe(env, s, e);
    OwnsOneOrNew(env, s, e);
    var others := Others(w'.firstPlayer, w'.live, w'.accounts);
    assert View(w', j) == Next(env, v, others);
    if Owns(v) {
      assert Untouched(env, s, e, Address(v));
      TouchesItsOwn(env, s, e, Address(v));
    }
    assert Legal(v, others);
    NextIsSafe(env, v, others);
  }

  /** Every step of every connection keeps all of them safe if and only if it does not free a character that is
      somebody else's. */
  lemma {:induction false} StepIsSafe(env: Env, w: Server, i: nat, e: Event)
    requires AllSafe(w) && AllReady(w) && Happens(w, i, e)
    ensures AllSafe(Step(env, w, i, e)) <==> !Harms(env, w, i, e)
  {
    var s, w' := View(w, i), Step(env, w, i, e);
    assert Safe(s);
    if Harms(env, w, i, e) {
      FreesIt(env, s, e);
      var j :| 0 <= j < |w.conns| && Owns(View(w, j)) && Address(View(w, j)) == Address(s);
      assert !Safe(View(w', j));
    } else {
      NextIsSafe(env, s, e);
      assert View(w', i) == Next(env, s, e);
      forall j | 0 <= j < |w.conns| && j != i
        ensures Safe(View(w', j)) && Apart(w', i, j)
      {
        OthersStaySafe(env, w, i, j, e);
      }
      forall j, k | 0 <= j < k < |w.conns| ensures Apart(w', j, k) {
        if j != i && k != i {
          assert Apart(w, j, k);
        }
      }
    }
  }

  /** m connections before their first lines. */
  function Start(m: nat, live: set<nat>, accounts: map<string, Stored>): (w: Server)
    ensures AllReady(w) && |w.conns| == m
  {
    Server(seq(m, _ => Connection(GetAccountName, None, 0, false)), [], live, accounts)
  }

  /** Every event reaches one of m connections. */
  predicate Indexed(events: seq<(nat, Event)>, m: nat) {
    forall k :: 0 <= k < |events| ==> events[k].0 < m
  }

  /** The server after the first n of the events that reach its connections. */
  function ServerAfter(env: Env, start: Server, events: seq<(nat, Event)>, n: nat): (w: Server)
    requires AllReady(start) && n <= |events| && Indexed(events, |start.conns|)
    ensures AllReady(w) && |w.conns| == |start.conns|
  {
    if n == 0 then start else Step(env, ServerAfter(env, start, events, n - 1), events[n - 1].0, events[n - 1].1)
  }

  /** A run of the server. */
  ghost predicate ServerRun(env: Env, start: Server, events: seq<(nat, Event)>)
    requires AllReady(start)
  {
    && Indexed(events, |start.conns|)
    && (forall k :: 0 <= k < |events| ==> Happens(ServerAfter(env, start, events, k), events[k].0, events[k].1))
  }

  ghost predicate SafeUntil(env: Env, start: Server, events: seq<(nat, Event)>, n: nat)
    requires AllReady(start) && ServerRun(env, start, events) && n <= |events|
  {
    forall k :: 0 <= k <= n ==> AllSafe(ServerAfter(env, start, events, k))
  }

  ghost predicate HarmlessUntil(env: Env, start: Server, events: seq<(nat, Event)>, n: nat)
    requires AllReady(start) && ServerRun(env, start, events) && n <= |events|
  {
    forall k :: 0 <= k < n ==> !Harms(env, ServerAfter(env, start, events, k), events[k].0, events[k].1)
  }

  lemma {:induction false} SafeOneMore(env: Env, start: Server, events: seq<(nat, Event)>, n: nat)
    requires AllReady(start) && ServerRun(env, start, events) && 0 < n <= |events|
    ensures SafeUntil(env, start, events, n) <==>
            SafeUntil(env, start, events, n - 1) && AllSafe(ServerAfter(env, start, events, n))
    ensures SafeUntil(env, start, events, n - 1) ==> AllSafe(ServerAfter(env, start, events, n - 1))
    ensures HarmlessUntil(env, start, events, n) <==>
            && HarmlessUntil(env, start, events, n - 1)
            && !Harms(env, ServerAfter(env, start, events, n - 1), events[n - 1].0, events[n - 1].1)
  {
    hide AllSafe, Harms, Step, Happens, AllReady;
  }

  lemma {:induction false} RunKeepsSafe(env: Env, start: Server, events: seq<(nat, Event)>, n: nat)
    requires AllReady(start) && AllSafe(start) && ServerRun(env, start, events) && n <= |events|
    ensures SafeUntil(env, start, events, n) <==> HarmlessUntil(env, start, events, n)
  {
    if n == 0 {
      assert ServerAfter(env, start, events, 0) == start;
    } else {
      var w, i, e := ServerAfter(env, start, events, n - 1), events[n - 1].0, events[n - 1].1;
      assert Happens(w, i, e) && ServerAfter(env, start, events, n) == Step(env, w, i, e);
      RunKeepsSafe(env, start, events, n - 1);
      hide *;
      SafeOneMore(env, start, events, n);
      if AllSafe(w) {
        StepIsSafe(env, w, i, e);
      }
    }
  }

  /** Whatever reaches any number of connections, all of them are safe at all times if and only if none ever frees
      a character again whose address has been given to another one. */
  lemma {:induction false} RunsAreSafe(env: Env, m: nat, live: set<nat>, accounts: map<string, Stored>,
      events: seq<(nat, Event)>)
    requires ServerRun(env, Start(m, live, accounts), events)
    ensures SafeUntil(env, Start(m, live, accounts), events, |events|) <==>
            HarmlessUntil(env, Start(m, live, accounts), events, |events|)
  {
    RunKeepsSafe(env, Start(m, live, accounts), events, |events|);
  }

  /** In particular they are safe when no connection ends, or deletes its account, between the deletion of its
      character and the next character that it loads or creates. */
  lemma {:induction false} SafeWithoutDangling(env: Env, m: nat, live: set<nat>, accounts: map<string, Stored>,
      events: seq<(nat, Event)>)
    requires ServerRun(env, Start(m, live, accounts), events)
    requires forall k :: 0 <= k < |events| ==>
      var s := View(ServerAfter(env, Start(m, live, accounts), events, k), events[k].0);
      s.dangling ==> !Frees(env, s, events[k].1)
    ensures SafeUntil(env, Start(m, live, accounts), events, |events|)
  {
    RunsAreSafe(env, m, live, accounts, events);
  }

  /** A server with two accounts, whose characters are played as soon as the password is given. */
  const STORED := map["ann" := Stored("secret", [AccountPlayer(1, "Ann")], 1),
      "bob" := Stored("hidden", [AccountPlayer(2, "Bob")], 2)]
  const TWO_PLAYERS := Env(
    (password, login) => password, address => true, zone => 0, race => None, class_ => 0,
    command => if command == "delete" then Delete else OtherCommand)

  /** Ann plays at address 7 and deletes her character, Bob's character gets the address, and Ann hangs up. */
  function DeleteThenHangup(): (es: seq<(nat, Event)>)
    ensures |es| == 7 && forall k :: 0 <= k < 7 ==> es[k].0 < 2
  {
    [(0, Line("ann", Free(8))), (0, Line("secret", Free(7))), (0, Line("delete", Free(8))),
     (0, Line("secret", Free(8))), (1, Line("bob", Free(8))), (1, Line("hidden", Free(7))), (0, Hangup(Free(8)))]
  }

  /** The next character gets this address, and nothing is stored. */
  function Free(at: nat): Answers {
    Answers(true, false, at, 0)
  }

  const IDLE := Connection(GetAccountName, None, 0, false)

  /** A connection that has named its account, or plays its character, at the address ref. */
  function With(login: string, h: Handler, playing: Option<Character>): Connection
    requires login in STORED
  {
    var a := STORED[login];
    Connection(h, Some(Account(login, a.password, a.players, a.autologinId, playing)), 0, false)
  }

  const ANN := Some(Character(7, 1, "Ann", false, None, None, []))
  const BOB := Some(Character(7, 2, "Bob", false, None, None, []))
  const ANN_DELETED := With("ann", AccountMenu, ANN).(dangling := true)

  /** The server before and after each of the seven events. */
  function Servers(): (ws: seq<Server>)
    ensures |ws| == 8
  {
    [Server([IDLE, IDLE], [], {}, STORED),
     Server([With("ann", GetAccountPassword, None), IDLE], [], {}, STORED),
     Server([With("ann", CommandParser, ANN), IDLE], [7], {7}, STORED),
     Server([With("ann", ConfirmDeleteChar, ANN), IDLE], [], {7}, STORED),
     Server([ANN_DELETED, IDLE], [], {}, STORED),
     Server([ANN_DELETED, With("bob", GetAccountPassword, None)], [], {}, STORED),
     Server([ANN_DELETED, With("bob", CommandParser, BOB)], [7], {7}, STORED),
     Server([Connection(Closed, None, 0, false), With("bob", CommandParser, BOB)], [], {}, STORED)]
  }

  lemma {:induction false} NamesAccount(w: Server, i: nat, login: string)
    requires i < |w.conns| && AllReady(w) && w.accounts == STORED && w.conns[i] == IDLE && login in {"ann", "bob"}
    ensures Step(TWO_PLAYERS, w, i, Line(login, Free(8))) ==
            Server(w.conns[i := With(login, GetAccountPassword, None)], w.firstPlayer, w.live, STORED)
  {
  }

  lemma {:induction false} GivesPassword(w: Server, i: nat, login: string, p: AccountPlayer)
    requires i < |w.conns| && AllReady(w) && login in {"ann", "bob"}
    requires w.accounts == STORED && w.conns[i] == With(login, GetAccountPassword, None)
    requires STORED[login].players == [p] && STORED[login].autologinId == p.charId
    ensures var ch := Character(7, p.charId, p.name, false, None, None, []);
            Step(TWO_PLAYERS, w, i, Line(STORED[login].password, Free(7))) ==
            Server(w.conns[i := With(login, CommandParser, Some(ch))], [7] + w.firstPlayer, w.live + {7}, STORED)
  {
    assert PlayerWithId([p], p.charId) == Some(p);
  }

  lemma {:induction false} AnnAsks()
    requires AllReady(Servers()[2])
    ensures Step(TWO_PLAYERS, Servers()[2], 0, DeleteThenHangup()[2].1) == Servers()[3]
  {
    assert Unlinked([7], 7) == [] && TWO_PLAYERS.command("delete") == Delete;
    assert Servers()[3].conns == Servers()[2].conns[0 := With("ann", ConfirmDeleteChar, ANN)];
  }

  lemma {:induction false} AnnConfirms()
    requires AllReady(Servers()[3])
    ensures Step(TWO_PLAYERS, Servers()[3], 0, DeleteThenHangup()[3].1) == Servers()[4]
  {
    assert Unlinked([], 7) == [];
    assert Servers()[4].conns == Servers()[3].conns[0 := ANN_DELETED];
  }

  lemma {:induction false} AnnHangsUp()
    requires AllReady(Servers()[6])
    ensures Step(TWO_PLAYERS, Servers()[6], 0, DeleteThenHangup()[6].1) == Servers()[7]
  {
    assert Unlinked([7], 7) == [];
    assert Servers()[7].conns == Servers()[6].conns[0 := Connection(Closed, None, 0, false)];
  }

  lemma {:induction false} OthersLogIn(n: nat)
    requires n in {0, 1, 4, 5} && AllReady(Servers()[n])
    ensures Step(TWO_PLAYERS, Servers()[n], DeleteThenHangup()[n].0, DeleteThenHangup()[n].1) == Servers()[n + 1]
  {
    hide Step, AllReady;
    if n == 0 {
      NamesAccount(Servers()[0], 0, "ann");
    } else if n == 1 {
      GivesPassword(Servers()[1], 0, "ann", AccountPlayer(1, "Ann"));
    } else if n == 4 {
      NamesAccount(Servers()[4], 1, "bob");
    } else {
      GivesPassword(Servers()[5], 1, "bob", AccountPlayer(2, "Bob"));
    }
  }

  /** States of the server that follow from each other by what happens, without harm. */
  ghost predicate Follows(env: Env, servers: seq<Server>, events: seq<(nat, Event)>, k: nat)
    requires k < |events| && |servers| == |events| + 1
  {
    && AllReady(servers[k]) && Happens(servers[k], events[k].0, events[k].1)
    && servers[k + 1] == Step(env, servers[k], events[k].0, events[k].1)
  }

  lemma {:induction false} FollowsRun(env: Env, servers: seq<Server>, events: seq<(nat, Event)>, n: nat)
    requires |servers| == |events| + 1 && n <= |events| && AllReady(servers[0])
    requires forall k :: 0 <= k < |events| ==> Follows(env, servers, events, k)
    requires forall k :: 0 <= k < |events| ==> events[k].0 < |servers[0].conns|
    ensures ServerAfter(env, servers[0], events, n) == servers[n]
  {
    if n > 0 {
      FollowsRun(env, servers, events, n - 1);
      assert Follows(env, servers, events, n - 1);
    }
  }

  lemma {:induction false} FollowsSafely(env: Env, servers: seq<Server>, events: seq<(nat, Event)>, n: nat)
    requires |servers| == |events| + 1 && n <= |events| && AllReady(servers[0]) && AllSafe(servers[0])
    requires forall k :: 0 <= k < |events| ==> Follows(env, servers, events, k)
    requires forall k :: 0 <= k < |events| ==> events[k].0 < |servers[0].conns|
    requires forall k :: 0 <= k < n ==>
      events[k].0 < |servers[k].conns| && !Harms(env, servers[k], events[k].0, events[k].1)
    ensures ServerRun(env, servers[0], events) && SafeUntil(env, servers[0], events, n)
  {
    forall k: nat | k < |events|
      ensures Happens(ServerAfter(env, servers[0], events, k), events[k].0, events[k].1)
      ensures ServerAfter(env, servers[0], events, k) == servers[k]
    {
      FollowsRun(env, servers, events, k);
      assert Follows(env, servers, events, k);
    }
    hide ServerAfter, Happens, Harms, Follows, AllSafe;
    RunKeepsSafe(env, servers[0], events, n);
  }

  lemma {:induction false} ServersFollow(n: nat)
    requires n < 7
    ensures Follows(TWO_PLAYERS, Servers(), DeleteThenHangup(), n)
  {
    assert AllReady(Servers()[n]);
    assert Happens(Servers()[n], DeleteThenHangup()[n].0, DeleteThenHangup()[n].1);
    hide Step, AllReady, Servers, DeleteThenHangup, Happens;
    if n in {0, 1, 4, 5} {
      OthersLogIn(n);
    } else if n == 2 {
      AnnAsks();
    } else if n == 3 {
      AnnConfirms();
    } else {
      AnnHangsUp();
    }
  }

  /** Connection i plays a character that is not on the list of players. */
  predicate PlaysUnlinked(w: Server, i: nat) {
    i < |w.conns| && w.conns[i].handler == CommandParser && Plays(View(w, i)) && Address(View(w, i)) !in w.firstPlayer
  }

  lemma {:induction false} ServersStart()
    ensures Servers()[0] == Start(2, {}, STORED) && AllSafe(Servers()[0])
    ensures PlaysUnlinked(Servers()[7], 1)
    ensures forall n :: 0 <= n < 6 ==>
        DeleteThenHangup()[n].0 < |Servers()[n].conns| && !View(Servers()[n], DeleteThenHangup()[n].0).dangling
  {
  }

  /** A hang-up takes a player off the list who is still playing; up to it the run is safe. */
  lemma {:induction false} HangupUnlinksAnother()
    ensures ServerRun(TWO_PLAYERS, Start(2, {}, STORED), DeleteThenHangup())
    ensures SafeUntil(TWO_PLAYERS, Start(2, {}, STORED), DeleteThenHangup(), 6)
    ensures PlaysUnlinked(ServerAfter(TWO_PLAYERS, Start(2, {}, STORED), DeleteThenHangup(), 7), 1)
  {
    ServersStart();
    hide Servers, DeleteThenHangup, AllSafe, Start, Step, ServerAfter, Follows, PlaysUnlinked;
    forall n: nat | n < 7 ensures Follows(TWO_PLAYERS, Servers(), DeleteThenHangup(), n) {
      ServersFollow(n);
    }
    FollowsSafely(TWO_PLAYERS, Servers(), DeleteThenHangup(), 6);
    FollowsRun(TWO_PLAYERS, Servers(), DeleteThenHangup(), 7);
  }

  /** A line by which a handler loads or creates a character or attaches a new account. */
  predicate Renews(env: Env, s: State, e: Event)
    requires Ready(s)
  {
    match e
    case Line(arg, _) =>
      || (s.handler == GetAccountName && arg != "")
      || (s.handler == GetAccountPassword && Matches(env, s.account.value, arg)
          && PlayerWithId(s.account.value.players, s.account.value.autologinId).Some?)
      || (s.handler == AccountMenu && LooksNumeric(arg) && 1 <= Atoi(arg) <= |s.account.value.players|)
      || (s.handler == CreateNewChar && GoodCharName(arg))
    case Autosave(_) => false
    case Hangup(_) => true
    case Others(_, _, _) => false
  }

  /** Line k destroyed the character, and none was loaded or created since. */
  predicate DestroyedSince(env: Env, start: State, events: seq<Event>, k: nat, n: nat)
    requires Ready(start) && k < n <= |events|
  {
    && events[k].Line? && Frees(env, After(env, start, events, k), events[k])
    && forall l :: k < l < n ==> !Renews(env, After(env, start, events, l), events[l])
  }

  lemma {:induction false} DanglesLine(env: Env, s: State, arg: string, ans: Answers)
    requires Ready(s)
    requires s.handler in {GetAccountName, GetAccountPassword, AccountMenu, CreateNewChar, ConfirmDeleteChar,
                           ConfirmAccountDelete, CommandParser}
    ensures var e := Line(arg, ans);
            OnLine(env, s, arg, ans).dangling <==> Frees(env, s, e) || (s.dangling && !Renews(env, s, e))
  {
    hide LooksNumeric, Atoi, GoodCharName, Unlinked, PlayerWithId, Capitalize, SavedPlayers, WithoutPlayer;
  }

  lemma {:induction false} DanglesQuietly(env: Env, s: State, arg: string, ans: Answers)
    requires Ready(s)
    requires s.handler !in {GetAccountName, GetAccountPassword, AccountMenu, CreateNewChar, ConfirmDeleteChar,
                            ConfirmAccountDelete, CommandParser}
    ensures OnLine(env, s, arg, ans).dangling == s.dangling
    ensures !Frees(env, s, Line(arg, ans)) && !Renews(env, s, Line(arg, ans))
  {
    hide SexOf;
  }

  lemma {:induction false} DanglesNext(env: Env, s: State, e: Event)
    requires Ready(s)
    ensures Next(env, s, e).dangling <==>
            (e.Line? && Frees(env, s, e)) || (s.dangling && !Renews(env, s, e))
  {
    if e.Line? {
      hide OnLine, Frees, Renews, Ready;
      if s.handler in {GetAccountName, GetAccountPassword, AccountMenu, CreateNewChar, ConfirmDeleteChar,
                       ConfirmAccountDelete, CommandParser} {
        DanglesLine(env, s, e.arg, e.ans);
      } else {
        DanglesQuietly(env, s, e.arg, e.ans);
      }
    } else {
      hide Unlinked, SavedPlayers;
    }
  }

  lemma {:induction false} DestroyedNext(env: Env, start: State, events: seq<Event>, k: nat, n: nat)
    requires Ready(start) && k < n < |events|
    ensures DestroyedSince(env, start, events, k, n + 1) <==>
            DestroyedSince(env, start, events, k, n) && !Renews(env, After(env, start, events, n), events[n])
  {
    hide After, Frees, Renews;
  }

  /** The character was destroyed, and none was loaded or created since. */
  ghost predicate Destroyed(env: Env, start: State, events: seq<Event>, n: nat)
    requires Ready(start) && n <= |events|
  {
    exists k :: 0 <= k < n && DestroyedSince(env, start, events, k, n)
  }

  lemma {:induction false} DestroyedFirst(env: Env, start: State, events: seq<Event>, n: nat)
    requires Ready(start) && n < |events|
    ensures DestroyedSince(env, start, events, n, n + 1) <==>
            events[n].Line? && Frees(env, After(env, start, events, n), events[n])
  {
    hide After, Frees, Renews, Ready;
  }

  lemma {:induction false} DestroyedStep(env: Env, start: State, events: seq<Event>, n: nat)
    requires Ready(start) && n < |events|
    ensures var s, e := After(env, start, events, n), events[n];
            Destroyed(env, start, events, n + 1) <==>
            (e.Line? && Frees(env, s, e)) || (Destroyed(env, start, events, n) && !Renews(env, s, e))
  {
    hide After, Frees, Renews, DestroyedSince, Ready;
    DestroyedFirst(env, start, events, n);
    var m := n + 1;
    if k :| 0 <= k < n && DestroyedSince(env, start, events, k, n) {
      DestroyedNext(env, start, events, k, n);
      assert !Renews(env, After(env, start, events, n), events[n]) ==> DestroyedSince(env, start, events, k, m);
    }
    if k :| 0 <= k < m && DestroyedSince(env, start, events, k, m) {
      if k < n {
        DestroyedNext(env, start, events, k, n);
        assert DestroyedSince(env, start, events, k, n);
      }
    }
  }

  /** A connection dangles exactly between the deletion of its character and the next character. */
  lemma {:induction false} DanglesExactly(env: Env, start: State, events: seq<Event>, n: nat)
    requires Ready(start) && !start.dangling && n <= |events|
    ensures After(env, start, events, n).dangling <==> Destroyed(env, start, events, n)
  {
    hide Frees, Renews, DestroyedSince, Next, Ready;
    if n == 0 {
      assert After(env, start, events, n) == start;
    } else {
      var m := n - 1;
      var s, e := After(env, start, events, m), events[m];
      assert After(env, start, events, n) == Next(env, s, e);
      hide After, Destroyed;
      DanglesExactly(env, start, events, m);
      DestroyedStep(env, start, events, m);
      DanglesNext(env, s, e);
    }
  }

  /** A hang-up now would take a player off the list who is not this connection's. */
  ghost predicate UnlinksAnother(env: Env, s: State)
    requires Ready(s)
  {
    exists x, ans :: x in s.firstPlayer && x !in Next(env, s, Hangup(ans)).firstPlayer
                  && !(Owns(s) && x == Address(s))
  }

  /** The end of a connection takes its own character off the list and nobody else, whatever the others do before,
      if and only if its character has not been destroyed since it was loaded or created. */
  lemma {:induction false} HangupLeaves(env: Env, start: State, events: seq<Event>, n: nat)
    requires IsFresh(start) && GoodList(start.firstPlayer, start.live)
    requires n <= |events| && LegalRun(env, start, events, n)
    ensures var s := After(env, start, events, n);
            && (Linked(s) ==> forall ans :: Address(s) !in Next(env, s, Hangup(ans)).firstPlayer)
            && ((forall e: Event :: e.Others? && Legal(s, e) ==> !UnlinksAnother(env, Next(env, s, e))) <==>
                !Destroyed(env, start, events, n))
  {
    var s := After(env, start, events, n);
    RunIsSafe(env, start, events, n);
    DanglesExactly(env, start, events, n);
    hide After, Destroyed, LegalRun, SoundCharacter;
    if s.dangling {
      var e := Others([Address(s)], {Address(s)}, s.accounts);
      DanglingUnlinks(env, s, e);
    }
    forall e: Event | e.Others? && Legal(s, e) && !s.dangling ensures !UnlinksAnother(env, Next(env, s, e)) {
      HangupSpares(env, Next(env, s, e));
    }
    if Linked(s) {
      HangupSpares(env, s);
    }
  }

  lemma {:induction false} DanglingUnlinks(env: Env, s: State, e: Event)
    requires Safe(s) && s.dangling && e == Others([Address(s)], {Address(s)}, s.accounts)
    ensures Legal(s, e) && UnlinksAnother(env, Next(env, s, e))
  {
    var s' := Next(env, s, e);
    assert Unlinked([Address(s)], Address(s)) == [];
    assert s'.handler != CommandParser;
    assert Address(s) in s'.firstPlayer && Address(s) !in Next(env, s', Hangup(Answers(true, true, 0, 0))).firstPlayer;
  }

  lemma {:induction false} HangupSpares(env: Env, s: State)
    requires Ready(s) && NoDuplicates(s.firstPlayer) && !s.dangling
    ensures !UnlinksAnother(env, s)
    ensures Linked(s) ==> forall ans :: Address(s) !in Next(env, s, Hangup(ans)).firstPlayer
  {
    if Plays(s) {
      UnlinkedOnly(s.firstPlayer, Address(s));
    }
  }

  /** What connection i sees of a run of the server. */
  function Local(env: Env, start: Server, events: seq<(nat, Event)>, i: nat): (r: seq<Event>)
    requires AllReady(start) && i < |start.conns| && Indexed(events, |start.conns|)
    ensures |r| == |events|
  {
    seq(|events|, k requires 0 <= k < |events| =>
      if events[k].0 == i then events[k].1
      else var w := ServerAfter(env, start, events, k + 1); Others(w.firstPlayer, w.live, w.accounts))
  }

  lemma {:induction false} ViewOfStep(env: Env, w: Server, j: nat, i: nat, e: Event)
    requires AllReady(w) && i < |w.conns| && j < |w.conns|
    ensures var w' := Step(env, w, j, e);
            View(w', i) == Next(env, View(w, i), if j == i then e else Others(w'.firstPlayer, w'.live, w'.accounts))
  {
    var s := Next(env, View(w, j), e);
    hide OnLine;
  }

  /** To each connection the run of the server is a run of its own. */
  lemma {:induction false} LocalRun(env: Env, start: Server, events: seq<(nat, Event)>, i: nat, n: nat)
    requires AllReady(start) && i < |start.conns| && n <= |events|
    requires Indexed(events, |start.conns|)
    ensures View(ServerAfter(env, start, events, n), i) ==
            After(env, View(start, i), Local(env, start, events, i), n)
  {
    if n > 0 {
      var w, j, e := ServerAfter(env, start, events, n - 1), events[n - 1].0, events[n - 1].1;
      var own := Local(env, start, events, i);
      var s := After(env, View(start, i), own, n - 1);
      assert ServerAfter(env, start, events, n) == Step(env, w, j, e);
      assert After(env, View(start, i), own, n) == Next(env, s, own[n - 1]);
      LocalRun(env, start, events, i, n - 1);
      var w' := Step(env, w, j, e);
      assert own[n - 1] == if j == i then e else Others(w'.firstPlayer, w'.live, w'.accounts);
      hide ServerAfter, After, Step, Next, Local;
      ViewOfStep(env, w, j, i, e);
      assert View(ServerAfter(env, start, events, n), i) == After(env, View(start, i), own, n);
    }
  }

  lemma {:induction false} StepIsLast(env: Env, start: Server, events: seq<(nat, Event)>, n: nat)
    requires AllReady(start) && 0 < n <= |events|
    requires Indexed(events, |start.conns|)
    ensures ServerAfter(env, start, events, n) ==
            Step(env, ServerAfter(env, start, events, n - 1), events[n - 1].0, events[n - 1].1)
  {
    hide Step, AllReady;
  }

  lemma {:induction false} NextIsLast(env: Env, start: State, events: seq<Event>, n: nat)
    requires Ready(start) && 0 < n <= |events|
    ensures After(env, start, events, n) == Next(env, After(env, start, events, n - 1), events[n - 1])
  {
    hide Next, Ready;
  }

  lemma {:induction false} LocalAt(env: Env, start: Server, events: seq<(nat, Event)>, i: nat, k: nat)
    requires AllReady(start) && i < |start.conns| && k < |events|
    requires Indexed(events, |start.conns|)
    ensures var w := ServerAfter(env, start, events, k + 1);
            Local(env, start, events, i)[k] ==
            if events[k].0 == i then events[k].1 else Others(w.firstPlayer, w.live, w.accounts)
  {
    hide ServerAfter, AllReady;
  }

  /** Every event reaches one of m connections and is its own. */
  predicate OwnEvents(events: seq<(nat, Event)>, m: nat) {
    && Indexed(events, m)
    && (forall k :: 0 <= k < |events| ==> !events[k].1.Others?)
  }

  /** Some connection chose the password for the account, which was not stored then, and repeated it. */
  ghost predicate ChosenBySomebody(env: Env, start: Server, events: seq<(nat, Event)>, n: nat, login: string,
      password: string)
    requires AllReady(start) && OwnEvents(events, |start.conns|)
  {
    exists i, m, j, k :: 0 <= i < |start.conns| && 0 <= m < j < k < n
      && ConfirmedPassword(env, View(start, i), Local(env, start, events, i), m, j, k, login, password)
  }

  /** Where a password comes from: it was stored from the start, or some connection chose it. */
  ghost predicate Sourced(env: Env, start: Server, events: seq<(nat, Event)>, n: nat, login: string, password: string)
    requires AllReady(start) && OwnEvents(events, |start.conns|)
  {
    || (login in start.accounts && start.accounts[login].password == password)
    || ChosenBySomebody(env, start, events, n, login, password)
  }

  lemma {:induction false} SourcedLater(env: Env, start: Server, events: seq<(nat, Event)>, n: nat, n': nat,
      login: string, password: string)
    requires AllReady(start) && OwnEvents(events, |start.conns|)
    requires n <= n' && Sourced(env, start, events, n, login, password)
    ensures Sourced(env, start, events, n', login, password)
  {
    hide ConfirmedPassword, Local;
  }

  /** The stored accounts change only by a player who saves his own. */
  lemma {:induction false} StoresOwn(env: Env, s: State, e: Event, login: string)
    requires Ready(s) && !e.Others? && login in Next(env, s, e).accounts
    ensures var password := Next(env, s, e).accounts[login].password;
            || (login in s.accounts && s.accounts[login].password == password)
            || (s.handler == CommandParser && login == s.account.value.login && password == s.account.value.password)
  {
    if e.Line? && s.handler !in {CommandParser, ConfirmDeleteChar, ConfirmAccountDelete} {
      StoresNothing(env, s, e.arg, e.ans);
      hide OnLine, Ready;
    } else {
      hide OnAccountName, OnAccountPassword, OnAccountMenu, OnCreateChar, OnSex, OnRace, OnClass, OnCreatePassword;
      hide Unlinked, SavedPlayers, WithoutPlayer;
    }
  }

  lemma {:induction false} StoresNothing(env: Env, s: State, arg: string, ans: Answers)
    requires Ready(s) && s.handler !in {CommandParser, ConfirmDeleteChar, ConfirmAccountDelete}
    ensures OnLine(env, s, arg, ans).accounts == s.accounts
  {
    hide LooksNumeric, Atoi, GoodCharName, SexOf, PlayerWithId, Capitalize;
  }

  /** Whoever is behind the login of an account has given a password that comes from somewhere. */
  lemma {:induction false} EntitledIsSourced(env: Env, start: Server, events: seq<(nat, Event)>, i: nat, n: nat,
      login: string, password: string)
    requires AllReady(start) && AllFresh(start) && OwnEvents(events, |start.conns|)
    requires i < |start.conns| && n <= |events|
    requires Entitled(env, View(start, i), Local(env, start, events, i), n, login, password)
    ensures Sourced(env, start, events, n, login, password)
    decreases n, 0
  {
    var own, v := Local(env, start, events, i), View(start, i);
    hide After, LastName, Local, AllFresh, AllReady;
    if a: nat, k: nat :| EnteredBy(env, v, own, a, k, n, login, password) {
      LocalRun(env, start, events, i, a);
      hide ServerAfter;
      AccountsSourced(env, start, events, a, login);
      SourcedLater(env, start, events, a, n, login, password);
    } else {
      var a: nat, j: nat, k: nat :| CreatedBy(env, v, own, a, j, k, n, login, password);
      assert ConfirmedPassword(env, v, own, a, j, k, login, password);
    }
  }

  /** Every stored password comes from somewhere. */
  lemma {:induction false} AccountsSourced(env: Env, start: Server, events: seq<(nat, Event)>, n: nat, login: string)
    requires AllReady(start) && AllFresh(start) && OwnEvents(events, |start.conns|) && n <= |events|
    requires login in ServerAfter(env, start, events, n).accounts
    ensures Sourced(env, start, events, n, login, ServerAfter(env, start, events, n).accounts[login].password)
    decreases n, 1
  {
    hide AllReady, AllFresh, ServerAfter, Sourced, StoredBefore, Entitled, Local;
    if n == 0 {
      StoredFromStart(env, start, events, login);
    } else {
      var password := ServerAfter(env, start, events, n).accounts[login].password;
      if StoredBefore(env, start, events, n, login, password) {
        AccountsSourced(env, start, events, n - 1, login);
      } else {
        var i := StoredByPlayer(env, start, events, n, login);
        EntitledIsSourced(env, start, events, i, n - 1, login, password);
      }
      SourcedLater(env, start, events, n - 1, n, login, password);
    }
  }

  lemma {:induction false} StoredFromStart(env: Env, start: Server, events: seq<(nat, Event)>, login: string)
    requires AllReady(start) && OwnEvents(events, |start.conns|)
    requires login in ServerAfter(env, start, events, 0).accounts
    ensures Sourced(env, start, events, 0, login, ServerAfter(env, start, events, 0).accounts[login].password)
  {
  }

  predicate AllFresh(w: Server) {
    forall i :: 0 <= i < |w.conns| ==> IsFresh(View(w, i))
  }

  lemma {:induction false} StartIsFresh(m: nat, live: set<nat>, accounts: map<string, Stored>)
    ensures AllFresh(Start(m, live, accounts))
  {
  }

  /** The account was stored with this password one event before. */
  predicate StoredBefore(env: Env, start: Server, events: seq<(nat, Event)>, n: nat, login: string, password: string)
    requires AllReady(start) && OwnEvents(events, |start.conns|) && 0 < n <= |events|
    ensures StoredBefore(env, start, events, n, login, password) ==>
      login in ServerAfter(env, start, events, n - 1).accounts
      && ServerAfter(env, start, events, n - 1).accounts[login].password == password
  {
    var w := ServerAfter(env, start, events, n - 1);
    login in w.accounts && w.accounts[login].password == password
  }

  /** Otherwise a connection has just stored it that is entitled to it. */
  lemma {:induction false} StoredByPlayer(env: Env, start: Server, events: seq<(nat, Event)>, n: nat, login: string)
      returns (i: nat)
    requires AllReady(start) && AllFresh(start) && OwnEvents(events, |start.conns|) && 0 < n <= |events|
    requires login in ServerAfter(env, start, events, n).accounts
    requires !StoredBefore(env, start, events, n, login, ServerAfter(env, start, events, n).accounts[login].password)
    ensures i < |start.conns|
    ensures Entitled(env, View(start, i), Local(env, start, events, i), n - 1, login,
                     ServerAfter(env, start, events, n).accounts[login].password)
  {
    hide ServerAfter, Step, AllReady, Entitled, Local;
    i := events[n - 1].0;
    assert Privileged(CommandParser) && IsFresh(View(start, i));
    StepIsLast(env, start, events, n);
    var w := ServerAfter(env, start, events, n - 1);
    var password := ServerAfter(env, start, events, n).accounts[login].password;
    assert !(login in w.accounts && w.accounts[login].password == password);
    hide *;
    AccountsOfStep(env, w, i, events[n - 1].1, login);
    PlayerIsEntitled(env, start, events, i, n - 1);
  }

  lemma {:induction false} AccountsOfStep(env: Env, w: Server, i: nat, e: Event, login: string)
    requires AllReady(w) && i < |w.conns| && !e.Others? && login in Step(env, w, i, e).accounts
    ensures var s, password := View(w, i), Step(env, w, i, e).accounts[login].password;
            || (login in w.accounts && w.accounts[login].password == password)
            || (s.handler == CommandParser && s.account.Some? && login == s.account.value.login
                && password == s.account.value.password)
  {
    assert Ready(View(w, i));
    hide Next;
    StoresOwn(env, View(w, i), e, login);
  }

  /** The login and the password of a connection that is playing are ones that it is entitled to. */
  lemma {:induction false} PlayerIsEntitled(env: Env, start: Server, events: seq<(nat, Event)>, i: nat, n: nat)
    requires AllReady(start) && i < |start.conns| && n <= |events| && OwnEvents(events, |start.conns|)
    requires IsFresh(View(start, i))
    ensures var s := View(ServerAfter(env, start, events, n), i);
            Privileged(s.handler) ==>
              && s.account.Some?
              && Entitled(env, View(start, i), Local(env, start, events, i), n, s.account.value.login,
                          s.account.value.password)
  {
    hide ServerAfter, After, Entitled, Local;
    LocalRun(env, start, events, i, n);
    NoEntryWithoutPassword(env, View(start, i), Local(env, start, events, i), n);
  }

  /** On the whole server nobody is behind the login of an account without having given its password or chosen it,
      and that password was stored from the start or chosen and repeated by some connection when the account was not
      stored. */
  lemma {:induction false} NobodyEntersWithoutPassword(env: Env, m: nat, live: set<nat>, accounts: map<string, Stored>,
      events: seq<(nat, Event)>, i: nat, n: nat)
    requires i < m && n <= |events| && OwnEvents(events, m)
    ensures var start := Start(m, live, accounts);
            var s, own := View(ServerAfter(env, start, events, n), i), Local(env, start, events, i);
            Privileged(s.handler) ==>
              && s.account.Some?
              && Entitled(env, View(start, i), own, n, s.account.value.login, s.account.value.password)
              && Sourced(env, start, events, n, s.account.value.login, s.account.value.password)
  {
    var start := Start(m, live, accounts);
    StartIsFresh(m, live, accounts);
    assert IsFresh(View(start, i));
    hide ServerAfter, Entitled, Sourced, Local, Start;
    PlayerIsEntitled(env, start, events, i, n);
    var s := View(ServerAfter(env, start, events, n), i);
    if Privileged(s.handler) {
      EntitledIsSourced(env, start, events, i, n, s.account.value.login, s.account.value.password);
    }
  }

  // ---------------------------------------------------------------- the connection

  /** struct client, with the global list of players and the stored accounts that its handlers change. */
  class Client {
    const env: Env
    var handler: Handler
    var account: Option<Account>
    var retries: nat
    var firstPlayer: seq<nat>
    ghost var dangling: bool
    ghost var live: set<nat>
    var accounts: map<string, Stored>

    ghost function Now(): State
      reads this
    {
      State(handler, account, retries, dangling, firstPlayer, live, accounts)
    }

    /** new_client */
    constructor (env: Env, firstPlayer: seq<nat>, ghost live: set<nat>, accounts: map<string, Stored>)
      ensures this.env == env && Now() == Fresh(firstPlayer, live, accounts)
    {
      this.accounts := accounts;
      this.env, handler, account, retries, this.firstPlayer := env, GetAccountName, None, 0, firstPlayer;
      dangling, this.live := false, live;
    }

    /** set_playing */
    method SetPlaying()
      requires Plays(Now())
      modifies this
      ensures Now() == Entered(old(Now()))
    {
      handler := CommandParser;
      firstPlayer := [account.value.playing.value.ref] + firstPlayer;
    }

    /** The UNLINK that takes the character off the list of players. */
    method Unlink()
      requires Plays(Now())
      modifies this
      ensures Now() == Left(old(Now()))
    {
      firstPlayer := Unlinked(firstPlayer, account.value.playing.value.ref);
    }

    /** extract_char: unlinked and freed, but the account keeps the pointer. */
    method Extract()
      requires Plays(Now())
      modifies this
      ensures Now() == Extracted(old(Now()))
    {
      Unlink();
      live := live - {account.value.playing.value.ref};
      dangling := true;
    }

    /** new_char at the address at. */
    method NewCharacter(ch: Character)
      requires account.Some?
      modifies this
      ensures Now() == Created(old(Now()), ch)
    {
      account := Some(account.value.(playing := Some(ch)));
      dangling, live := false, live + {ch.ref};
    }

    /** load_player_by_id; a character is not loaded when the database refuses. */
    method LoadPlayer(p: AccountPlayer, ans: Answers)
      requires account.Some?
      modifies this
      ensures Now() == if ans.loads then Load(old(Now()), p, ans.at) else NotLoaded(old(Now()))
    {
      if ans.loads {
        NewCharacter(Character(ans.at, p.charId, p.name, false, None, None, []));
      } else {
        account := Some(account.value.(playing := None));
        dangling := false;
      }
    }

    /** save_player */
    method SavePlayer(ans: Answers)
      requires Plays(Now())
      modifies this
      ensures Now() == Saved(old(Now()), ans)
    {
      if !ans.stores {
        return;
      }
      var a := account.value;
      var ch := a.playing.value;
      var players := [];
      if a.login in accounts {
        players := accounts[a.login].players;
      }
      if ch.id == 0 {
        ch := ch.(id := ans.row);
      }
      account := Some(a.(playing := Some(ch)));
      accounts := accounts[a.login := Stored(a.password, SavedPlayers(players, ch), a.autologinId)];
    }

    /** client_get_account_name */
    method HandleAccountName(arg: string)
      modifies this
      ensures Now() == OnAccountName(old(Now()), arg)
    {
      if arg == "" {
        return;
      }
      account := Some(Account("", "", [], 0, None));
      dangling := false;
      if arg !in accounts {
        account := Some(account.value.(login := arg));
        handler := CreateAccount;
      } else {
        var a := accounts[arg];
        account := Some(account.value.(login := arg, password := a.password, players := a.players,
            autologinId := a.autologinId));
        handler := GetAccountPassword;
      }
    }

    /** client_get_account_password */
    method HandleAccountPassword(arg: string, ans: Answers)
      requires account.Some?
      modifies this
      ensures Now() == OnAccountPassword(env, old(Now()), arg, ans)
    {
      if account.value.password != env.crypt(arg, account.value.login) {
        if retries >= 2 {
          handler := Closed;
          return;
        }
        retries := retries + 1;
        return;
      }
      var p := account.value.players;
      while p != [] && p[0].charId != account.value.autologinId
        invariant PlayerWithId(p, account.value.autologinId) ==
                  PlayerWithId(account.value.players, account.value.autologinId)
        invariant Now() == old(Now())
        decreases p
      {
        p := p[1..];
      }
      if p == [] {
        handler := AccountMenu;
      } else {
        LoadPlayer(p[0], ans);
        if account.value.playing.Some? {
          SetPlaying();
        }
      }
    }

    /** client_create_account */
    method HandleCreateAccount(arg: string)
      modifies this
      ensures Now() == OnCreateAccount(old(Now()), arg)
    {
      match Upper(arg)
      case 'Y' => handler := CreateAccountPassword;
      case 'N' => handler := GetAccountName;
      case _ =>
    }

    /** client_create_account_password */
    method HandleCreatePassword(arg: string)
      requires account.Some?
      modifies this
      ensures Now() == OnCreatePassword(env, old(Now()), arg)
    {
      if arg == "" || |arg| < 6 {
        return;
      }
      account := Some(account.value.(password := env.crypt(arg, account.value.login)));
      handler := ConfirmAccountPassword;
    }

    /** client_confirm_account_password */
    method HandleConfirmPassword(arg: string)
      requires account.Some?
      modifies this
      ensures Now() == OnConfirmPassword(env, old(Now()), arg)
    {
      if account.value.password != env.crypt(arg, account.value.login) {
        handler := CreateAccountPassword;
        return;
      }
      handler := CreateAccountEmail;
    }

    /** client_create_account_email */
    method HandleEmail(arg: string)
      modifies this
      ensures Now() == OnEmail(env, old(Now()), arg)
    {
      if arg == "" || !env.validEmail(arg) {
        return;
      }
      handler := GetTimezone;
    }

    /** client_get_timezone */
    method HandleTimezone(arg: string)
      modifies this
      ensures Now() == OnTimezone(env, old(Now()), arg)
    {
      var zone := env.timezone(arg);
      if zone == -1 {
        return;
      }
      handler := AccountMenu;
    }

    /** client_account_menu */
    method HandleAccountMenu(arg: string, ans: Answers)
      requires account.Some?
      modifies this
      ensures Now() == OnAccountMenu(old(Now()), arg, ans)
    {
      var number := IsNumber(arg);
      if number != 0 {
        var num := Atoi(arg);
        var i := 0;
        while i < |account.value.players| && i + 1 != num
          invariant 0 <= i <= |account.value.players| && Now() == old(Now())
          invariant num < 1 || num > i
        {
          i := i + 1;
        }
        if i < |account.value.players| {
          LoadPlayer(account.value.players[i], ans);
          if account.value.playing.Some? {
            SetPlaying();
          }
        }
        return;
      }
      match Upper(arg)
      case 'C' => handler := CreateNewChar;
      case 'D' => handler := ConfirmAccountDelete;
      case 'E' => handler := Closed;
      case _ =>
    }

    /** client_create_new_char */
    method HandleCreateChar(arg: string, at: nat)
      requires account.Some?
      modifies this
      ensures Now() == OnCreateChar(old(Now()), arg, at)
    {
      if arg == "" || |arg| > 12 || |arg| < 3 {
        return;
      }
      for i := 0 to |arg|
        invariant forall j :: 0 <= j < i ==> IsAlpha(arg[j])
        invariant Now() == old(Now())
      {
        if !IsAlpha(arg[i]) {
          return;
        }
      }
      NewCharacter(Character(at, 0, Capitalize(arg), true, None, None, []));
      handler := GetCharSex;
    }

    /** client_get_char_sex */
    method HandleSex(arg: string)
      requires Plays(Now())
      modifies this
      ensures Now() == OnSex(old(Now()), arg)
    {
      if arg == "" {
        return;
      }
      var sex;
      var number := IsNumber(arg);
      if number != 0 {
        var num, i := Atoi(arg), 0;
        while i < |SEX_TABLE| && i + 1 != num
          invariant 0 <= i <= |SEX_TABLE| && (num < 1 || num > i)
        {
          i := i + 1;
        }
        if i == |SEX_TABLE| {
          return;
        }
        sex := SEX_TABLE[i].value;
      } else {
        sex := Flags.ValueLookup(SEX_TABLE, arg);
        if sex == -1 {
          return;
        }
      }
      account := Some(account.value.(playing := Some(account.value.playing.value.(sex := Some(sex)))));
      handler := GetRace;
    }

    /** client_get_race */
    method HandleRace(arg: string)
      requires Plays(Now())
      modifies this
      ensures Now() == OnRace(env, old(Now()), arg)
    {
      if arg == "" {
        return;
      }
      var race := env.race(arg);
      if race == None {
        return;
      }
      account := Some(account.value.(playing := Some(account.value.playing.value.(race := race))));
      handler := GetClass;
    }

    /** client_get_class */
    method HandleClass(arg: string)
      requires Plays(Now())
      modifies this
      ensures Now() == OnClass(env, old(Now()), arg)
    {
      if arg == "" {
        return;
      }
      var c := env.class_(arg);
      if c == -1 {
        return;
      }
      var ch := account.value.playing.value;
      account := Some(account.value.(playing := Some(ch.(classes := ch.classes + [c]))));
      SetPlaying();
      account := Some(account.value.(players := [AccountPlayer(ch.id, ch.name)] + account.value.players));
    }

    /** client_confirm_delete_char */
    method HandleConfirmDeleteChar(arg: string, ans: Answers)
      requires Plays(Now())
      modifies this
      ensures Now() == OnConfirmDeleteChar(env, old(Now()), arg, ans)
    {
      if arg == "" {
        SetPlaying();
        return;
      }
      if account.value.password != env.crypt(arg, account.value.login) {
        SetPlaying();
        return;
      }
      var a := account.value;
      if ans.stores && a.login in accounts {
        var was := accounts[a.login];
        accounts := accounts[a.login := was.(players := WithoutPlayer(was.players, a.playing.value.id))];
      }
      Extract();
      handler := AccountMenu;
    }

    /** client_confirm_account_delete; free_account takes the character with it. */
    method HandleConfirmAccountDelete(arg: string, ans: Answers)
      requires account.Some?
      modifies this
      ensures Now() == OnConfirmAccountDelete(env, old(Now()), arg, ans)
    {
      if account.value.password != env.crypt(arg, account.value.login) {
        handler := AccountMenu;
        return;
      }
      if ans.stores {
        accounts := accounts - {account.value.login};
      }
      if account.value.playing.Some? {
        Extract();
      }
      handler := Closed;
    }

    /** client_command_parser, as far as the commands that leave the game go. */
    method HandleCommand(arg: string, ans: Answers)
      requires Plays(Now())
      modifies this
      ensures Now() == OnCommand(env, old(Now()), arg, ans)
    {
      match env.command(arg) {
        case Logout =>
          Unlink();
          handler := AccountMenu;
        case Quit => handler := Closed;
        case Delete =>
          Unlink();
          handler := ConfirmDeleteChar;
        case Save => SavePlayer(ans);
        case OtherCommand =>
      }
    }

    /** The call through conn->handler. */
    method Handle(arg: string, ans: Answers)
      requires Ready(Now())
      modifies this
      ensures Now() == OnLine(env, old(Now()), arg, ans)
    {
      hide OnAccountName, OnAccountPassword, OnCreateAccount, OnCreatePassword, OnConfirmPassword;
      hide OnEmail, OnTimezone, OnAccountMenu;
      hide OnCreateChar, OnSex, OnRace, OnClass, OnCommand, OnConfirmDeleteChar, OnConfirmAccountDelete;
      match handler
      case GetAccountName => HandleAccountName(arg);
      case GetAccountPassword => HandleAccountPassword(arg, ans);
      case CreateAccount => HandleCreateAccount(arg);
      case CreateAccountPassword => HandleCreatePassword(arg);
      case ConfirmAccountPassword => HandleConfirmPassword(arg);
      case CreateAccountEmail => HandleEmail(arg);
      case GetTimezone => HandleTimezone(arg);
      case AccountMenu => HandleAccountMenu(arg, ans);
      case CreateNewChar => HandleCreateChar(arg, ans.at);
      case GetCharSex => HandleSex(arg);
      case GetRace => HandleRace(arg);
      case GetClass => HandleClass(arg);
      case CommandParser => HandleCommand(arg, ans);
      case ConfirmDeleteChar => HandleConfirmDeleteChar(arg, ans);
      case ConfirmAccountDelete => HandleConfirmAccountDelete(arg, ans);
      case Closed =>
    }

    /** One event. */
    method Receive(e: Event)
      requires Ready(Now())
      modifies this
      ensures Now() == Next(env, old(Now()), e)
    {
      hide OnLine, Unlinked;
      match e {
        case Line(arg, ans) => Handle(arg, ans);
        case Autosave(ans) =>
          if handler == CommandParser {
            SavePlayer(ans);
          }
        case Hangup(ans) =>
          if handler == CommandParser {
            SavePlayer(ans);
          }
          if account.Some? && account.value.playing.Some? {
            Extract();
          }
          handler, account := Closed, None;
          dangling := false;
        case Others(list, inUse, stored) =>
          firstPlayer, accounts := list, stored;
          live := inUse;
      }
    }
  }

  /** A whole connection: whatever arrives, nobody gets behind the login without a password, and the connection
      is in a safe state as long as the others leave its character alone. */
  method Serve(env: Env, firstPlayer: seq<nat>, ghost live: set<nat>, accounts: map<string, Stored>,
      events: seq<Event>) returns (c: Client)
    ensures var start := Fresh(firstPlayer, live, accounts);
            && fresh(c) && c.Now() == After(env, start, events, |events|)
            && (GoodList(firstPlayer, live) && LegalRun(env, start, events, |events|) ==> Safe(c.Now()))
            && (Privileged(c.handler) ==>
                  c.account.Some?
                  && Entitled(env, start, events, |events|, c.account.value.login, c.account.value.password))
            && (WrongTries(env, start, events, |events|) == 3 ==> c.handler == Closed)
  {
    ghost var start := Fresh(firstPlayer, live, accounts);
    assert IsFresh(start) && (GoodList(firstPlayer, live) ==> Safe(start));
    hide Next, Safe, Entitled, WrongTries, GoodList;
    c := new Client(env, firstPlayer, live, accounts);
    for i := 0 to |events|
      invariant fresh(c) && c.env == env && c.Now() == After(env, start, events, i)
    {
      c.Receive(events[i]);
    }
    if GoodList(firstPlayer, live) && LegalRun(env, start, events, |events|) {
      RunIsSafe(env, start, events, |events|);
    }
    NoEntryWithoutPassword(env, start, events, |events|);
    ThirdWrongEnds(env, start, events, |events|);
  }
}
