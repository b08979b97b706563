/**
 * Favourite and follow lists, story by story and of the author: the web
 * list of a page compared with the stored one, each user who joined or
 * left reported once and the stored list brought level with the page.
 * The story lists (`do_you_read_me`) and the author's own lists
 * (`get_userstats`) do the same work on different rows; it is written once
 * here, over which list and whose it is.
 */
module Members {
  import opened Base
  import opened Text
  import opened Records
  import opened Store
  import opened Report
  import opened Site
  import opened Extract

  datatype List = FavList | FollowList

  /** Whose list: a story's (the Favs and Follows tables) or the author's (FavMe and FollowMe). */
  datatype Owner = StoryOf(ref: int) | Me

  /** The `detail` string of a change: which list, and whether the users joined or left it. */
  datatype Detail = Detail(list: List, added: bool)

  function DetailText(d: Detail): string
  {
    (if d.list == FavList then "fav" else "follow") + (if d.added then " added" else " removed")
  }

  /** The membership row that records user `code` on this list. */
  function MemberRow(l: List, o: Owner, code: int): Membership
  {
    match o
    case StoryOf(ref) => if l == FavList then Fav(ref, code) else Follow(ref, code)
    case Me => if l == FavList then FavMe(code) else FollowMe(code)
  }

  /** `get_db_fav_users` and its kin: the codes of the stored rows of one list. */
  function Codes(members: set<Membership>, l: List, o: Owner): (r: set<int>)
    ensures forall c :: c in r <==> MemberRow(l, o, c) in members
  {
    match o
    case StoryOf(ref) => if l == FavList then FavCodes(members, ref) else FollowCodes(members, ref)
    case Me => if l == FavList then FavMeCodes(members) else FollowMeCodes(members)
  }

  /** The rows that record each of `codes` on one list. */
  function Rows(l: List, o: Owner, codes: set<int>): set<Membership>
  {
    set c | c in codes :: MemberRow(l, o, c)
  }

  /** Rows of different lists, owners or users differ. */
  lemma MemberRowInjective(l: List, o: Owner, c: int, l': List, o': Owner, c': int)
    requires MemberRow(l, o, c) == MemberRow(l', o', c')
    ensures l == l' && o == o' && c == c'
  {
  }

  /** The rows of `codes` on one list hold a row exactly when it is that list's and its user is one of `codes`. */
  lemma RowsHas(l: List, o: Owner, codes: set<int>, l': List, o': Owner, c: int)
    ensures MemberRow(l', o', c) in Rows(l, o, codes) <==> l' == l && o' == o && c in codes
  {
    if MemberRow(l', o', c) in Rows(l, o, codes) {
      var c' :| c' in codes && MemberRow(l, o, c') == MemberRow(l', o', c);
      MemberRowInjective(l, o, c', l', o', c);
    }
  }

  /** Adding or deleting the rows of some codes changes that list by exactly those codes, and no other list. */
  lemma RowsCodes(members: set<Membership>, l: List, o: Owner, codes: set<int>)
    ensures Codes(members + Rows(l, o, codes), l, o) == Codes(members, l, o) + codes
    ensures Codes(members - Rows(l, o, codes), l, o) == Codes(members, l, o) - codes
    ensures forall l', o' :: (l', o') != (l, o) ==>
      Codes(members + Rows(l, o, codes), l', o') == Codes(members, l', o')
      && Codes(members - Rows(l, o, codes), l', o') == Codes(members, l', o')
  {
    forall l', o', c
      ensures MemberRow(l', o', c) in Rows(l, o, codes) <==> l' == l && o' == o && c in codes
    {
      RowsHas(l, o, codes, l', o', c);
    }
    forall c
      ensures c in Codes(members + Rows(l, o, codes), l, o) <==> c in Codes(members, l, o) + codes
    {
    }
  }

  // ---------------------------------------------------------------------
  // The web side

  /** The users a favourites or follows page lists: their ids, and the alias shown for each. */
  datatype WebUsers = WebUsers(ids: set<int>, aliases: map<int, string>)

  /**
   * `get_web_fav_users` and its kin after the fetch: a parser's `False` (a
   * row and link count mismatch) and an empty list both give no users; the
   * alias of an id is the one of its last row.
   */
  function WebOf(recs: Option<seq<UserRec>>): (r: WebUsers)
    ensures forall c :: c in r.ids <==> recs.Some? && exists i :: 0 <= i < |recs.value| && recs.value[i].id == c
    ensures r.aliases.Keys == r.ids
  {
    if recs.None? || recs.value == [] then WebUsers({}, map[])
    else
      var last := LastBy(recs.value, (u: UserRec) => u.id);
      WebUsers(last.Keys, map c | c in last :: last[c].alias)
  }

  /** The alias kept for an id is the one of the last row carrying it. */
  lemma WebOfLastAlias(recs: seq<UserRec>, i: int)
    requires 0 <= i < |recs| && forall j :: i < j < |recs| ==> recs[j].id != recs[i].id
    ensures WebOf(Some(recs)).aliases[recs[i].id] == recs[i].alias
  {
    LastByIsLast(recs, (u: UserRec) => u.id, i);
  }

  /** A fetched favourites or follows page read as users; a fetch or parse failure is the run's failure. */
  function WebFrom(page: Result<Page>): Result<WebUsers>
  {
    match page
    case Err(e) => Err(e)
    case Ok(p) =>
      match Users(p.table1RowTexts, p.table1Links)
      case Err(e) => Err(e)
      case Ok(recs) => Ok(WebOf(recs))
  }

  /** Fetching a favourites or follows page and reading its users. */
  method GetWebUsers(getter: FanfictionGetter, req: Request) returns (r: Result<WebUsers>)
    modifies getter`log
    ensures getter.log == old(getter.log) + [req]
    ensures r == WebFrom(getter.serve(req))
  {
    var tree := getter.Fetch(req);
    if tree.Err? {
      return Err(tree.fault);
    }
    var parser := new UserParser();
    parser.SetTree(tree.value);
    var recs := parser.GetUsers();
    if recs.Err? {
      return Err(recs.fault);
    }
    r := Ok(WebOf(recs.value));
  }

  // ---------------------------------------------------------------------
  // One user's change

  const UnknownCountry := "Unknown"
  const NewUser := "New User"

  /** The alias a change line shows: the user's first stored alias, else the page's, else "New User". */
  function AliasFor(t: Tables, web: map<int, string>, code: int): string
  {
    var stored := Get(t.aliases, code, []);
    if stored != [] then stored[0] else Get(web, code, NewUser)
  }

  /** The country a change line shows: the stored one, or "Unknown" for a user made on the spot. */
  function CountryOf(t: Tables, code: int): string
  {
    Get(t.users, code, UserRow(UnknownCountry, NoDate)).country
  }

  /** `"'%s' from '%s' (%d)"` after the message. */
  function UserLine(t: Tables, web: map<int, string>, message: string, code: int): string
  {
    message + "'" + AliasFor(t, web, code) + "' from '" + CountryOf(t, code) + "' (" + FormatInt(code) + ")"
  }

  /** `ff_details_to_db`: a joined user's row is added when absent, a departed user's deleted when present. */
  function Applied(members: set<Membership>, d: Detail, o: Owner, code: int): set<Membership>
  {
    var row := MemberRow(d.list, o, code);
    if d.added then members + {row} else members - {row}
  }

  /** The users table once every user of `codes` is made if missing, with country "Unknown". */
  function UsersWith(users: map<int, UserRow>, codes: set<int>): (r: map<int, UserRow>)
    ensures r.Keys == users.Keys + codes
    ensures forall c :: c in users ==> r[c] == users[c]
    ensures forall c :: c in r && c !in users ==> r[c] == UserRow(UnknownCountry, NoDate)
  {
    map c | c in users.Keys + codes :: if c in users then users[c] else UserRow(UnknownCountry, NoDate)
  }

  /** The users of `codes` whose stored aliases are empty and whose page shows an alias. */
  function NewAliases(aliases: map<int, seq<string>>, web: map<int, string>, codes: set<int>): set<int>
  {
    set c | c in codes && Get(aliases, c, []) == [] && c in web && web[c] != NewUser
  }

  /** The Aliases table once every user of `codes` had the page's alias kept when it had none. */
  function AliasesWith(aliases: map<int, seq<string>>, web: map<int, string>, codes: set<int>): (r: map<int, seq<string>>)
    ensures forall c ::
      Get(r, c, []) == (if c in codes && Get(aliases, c, []) == [] && Get(web, c, NewUser) != NewUser then [web[c]] else Get(aliases, c, []))
  {
    var joined := NewAliases(aliases, web, codes);
    map c | c in aliases.Keys + joined :: if c in joined then [web[c]] else aliases[c]
  }

  /** The membership tables once the rows of every user of `codes` are written. */
  function MembersWith(members: set<Membership>, d: Detail, o: Owner, codes: set<int>): set<Membership>
  {
    if d.added then members + Rows(d.list, o, codes) else members - Rows(d.list, o, codes)
  }

  /** The tables once every user of `codes` has been handled; users, aliases and membership rows only. */
  function ChangedTables(t: Tables, web: map<int, string>, d: Detail, o: Owner, codes: set<int>): Tables
  {
    t.(users := UsersWith(t.users, codes), aliases := AliasesWith(t.aliases, web, codes),
       members := MembersWith(t.members, d, o, codes))
  }

  /** The lines a change reports, one per user in `order`. */
  function ChangeLines(t: Tables, web: map<int, string>, message: string, order: seq<int>): (r: seq<string>)
    ensures |r| == |order| && forall i :: 0 <= i < |order| ==> r[i] == UserLine(t, web, message, order[i])
  {
    seq(|order|, i requires 0 <= i < |order| => UserLine(t, web, message, order[i]))
  }

  /** Lines recorded under one key, in order. */
  function Entries(key: string, lines: seq<string>): (es: seq<Entry>)
    ensures |es| == |lines| && forall i :: 0 <= i < |lines| ==> es[i] == Entry(key, lines[i])
  {
    seq(|lines|, i requires 0 <= i < |lines| => Entry(key, lines[i]))
  }

  /** Entries under one key add exactly their lines under it, and nothing under any other key. */
  lemma {:induction false} EntriesLines(key: string, lines: seq<string>, k: string)
    ensures LinesFor(Entries(key, lines), k) == if k == key then lines else []
  {
    if lines != [] {
      var front := lines[..|lines| - 1];
      EntriesLines(key, front, k);
      var es := Entries(key, lines);
      assert es[..|es| - 1] == Entries(key, front);
      if k == key {
        assert lines == front + [lines[|lines| - 1]];
      }
    }
  }

  /** The entries a change records: one line per user under `key`, in the order the users were walked. */
  function ChangeEntries(key: string, t: Tables, web: map<int, string>, message: string, order: seq<int>): seq<Entry>
  {
    Entries(key, ChangeLines(t, web, message, order))
  }

  /** A user's line depends only on that user's rows: tables that agree there give the same lines. */
  lemma ChangeEntriesFrame(key: string, t: Tables, t': Tables, web: map<int, string>, message: string, order: seq<int>)
    requires forall c :: c in order ==> Get(t.aliases, c, []) == Get(t'.aliases, c, [])
    requires forall c :: c in order ==> (c in t.users <==> c in t'.users) && (c in t.users ==> t.users[c] == t'.users[c])
    ensures ChangeEntries(key, t, web, message, order) == ChangeEntries(key, t', web, message, order)
  {
    assert ChangeLines(t, web, message, order) == ChangeLines(t', web, message, order) by {
      forall i | 0 <= i < |order|
        ensures UserLine(t, web, message, order[i]) == UserLine(t', web, message, order[i])
      {
        assert order[i] in order;
      }
    }
  }

  predicate Distinct(order: seq<int>)
  {
    forall i, j :: 0 <= i < j < |order| ==> order[i] != order[j]
  }

  function Elems(order: seq<int>): set<int>
  {
    set c | c in order
  }

  /** `order` lists every element of `codes` exactly once: an iteration order of the set. */
  predicate Enumerates(order: seq<int>, codes: set<int>)
  {
    Distinct(order) && Elems(order) == codes
  }

  /** A set is walked in as many steps as it has elements. */
  lemma {:induction false} DistinctSize(order: seq<int>)
    requires Distinct(order)
    ensures |Elems(order)| == |order|
  {
    if order != [] {
      var front := order[..|order| - 1];
      DistinctSize(front);
      assert Elems(order) == Elems(front) + {order[|order| - 1]};
    }
  }

  /** One more user handled: made if missing. */
  lemma UsersStep(users: map<int, UserRow>, done: set<int>, c: int)
    ensures UsersWith(users, done + {c}) == WithDefault(UsersWith(users, done), c, UserRow(UnknownCountry, NoDate))
  {
  }

  /** One more user handled: the page's alias kept when the user has none. */
  lemma AliasesStep(aliases: map<int, seq<string>>, web: map<int, string>, done: set<int>, c: int)
    requires c !in done
    ensures AliasesWith(aliases, web, done + {c}) == KeepAlias(AliasesWith(aliases, web, done), web, c)
  {
    var a := AliasesWith(aliases, web, done);
    if Get(a, c, []) == [] && Get(web, c, NewUser) != NewUser {
      assert NewAliases(aliases, web, done + {c}) == NewAliases(aliases, web, done) + {c};
    } else {
      assert NewAliases(aliases, web, done + {c}) == NewAliases(aliases, web, done);
    }
  }

  /** One more user handled: the membership row written. */
  lemma MembersStep(members: set<Membership>, d: Detail, o: Owner, done: set<int>, c: int)
    ensures MembersWith(members, d, o, done + {c}) == Applied(MembersWith(members, d, o, done), d, o, c)
  {
    assert Rows(d.list, o, done + {c}) == Rows(d.list, o, done) + {MemberRow(d.list, o, c)};
  }

  // ---------------------------------------------------------------------
  // The program's steps

  /** `ff_details_to_db`: the membership row written, and nothing else. */
  method DetailsToDb(db: ReadMeDb, d: Detail, o: Owner, code: int)
    modifies db`session
    ensures db.session == old(db.session).(members := Applied(old(db.session).members, d, o, code))
  {
    var row := MemberRow(d.list, o, code);
    if d.added {
      if row !in db.session.members {
        db.AddMember(row);
      }
    } else if row in db.session.members {
      db.DeleteMember(row);
    }
  }

  /** A row written twice is written once: adding a present row or deleting an absent one changes nothing. */
  lemma AppliedIdempotent(members: set<Membership>, d: Detail, o: Owner, code: int)
    ensures Applied(Applied(members, d, o, code), d, o, code) == Applied(members, d, o, code)
    ensures Codes(Applied(members, d, o, code), d.list, o) ==
      if d.added then Codes(members, d.list, o) + {code} else Codes(members, d.list, o) - {code}
  {
    assert Applied(members, d, o, code) == if d.added then members + Rows(d.list, o, {code}) else members - Rows(d.list, o, {code});
    RowsCodes(members, d.list, o, {code});
  }

  /** The alias table once the page's alias is kept for a user who has none. */
  function KeepAlias(aliases: map<int, seq<string>>, web: map<int, string>, code: int): map<int, seq<string>>
  {
    if Get(aliases, code, []) == [] && Get(web, code, NewUser) != NewUser then aliases[code := [web[code]]] else aliases
  }

  /** One user of a change: made if missing, alias chosen and kept, the line recorded, the row written. */
  method ChangeOne(db: ReadMeDb, reportGen: ReportGen, key: string, message: string, d: Detail, o: Owner,
                   code: int, web: map<int, string>)
    modifies db`session, reportGen`report
    ensures db.session == old(db.session).(users := WithDefault(old(db.session).users, code, UserRow(UnknownCountry, NoDate)),
                                           aliases := KeepAlias(old(db.session).aliases, web, code),
                                           members := Applied(old(db.session).members, d, o, code))
    ensures reportGen.report == Record(old(reportGen.report), Entry(key, UserLine(old(db.session), web, message, code)))
  {
    ghost var t0 := db.session;
    var user := db.GetOrCreateUser(code, UnknownCountry);
    var stored := Get(db.session.aliases, code, []);
    var alias: string;
    if stored != [] {
      alias := stored[0];
    } else {
      alias := Get(web, code, NewUser);
      if alias != NewUser {
        assert stored + [alias] == [web[code]];
        db.GetOrCreateAlias(code, alias);
      }
    }
    reportGen.LineToReport(key, message + "'" + alias + "' from '" + user.country + "' (" + FormatInt(code) + ")");
    DetailsToDb(db, d, o, code);
  }

  /** A user's line reads only that user's rows. */
  lemma UserLineFrame(t: Tables, t': Tables, web: map<int, string>, message: string, code: int)
    requires Get(t.aliases, code, []) == Get(t'.aliases, code, [])
    requires Get(t.users, code, UserRow(UnknownCountry, NoDate)) == Get(t'.users, code, UserRow(UnknownCountry, NoDate))
    ensures UserLine(t, web, message, code) == UserLine(t', web, message, code)
  {
  }

  /** One more user walked: one more entry at the end. */
  lemma ChangeEntriesSnoc(key: string, t: Tables, web: map<int, string>, message: string, order: seq<int>, code: int)
    ensures ChangeEntries(key, t, web, message, order + [code])
      == ChangeEntries(key, t, web, message, order) + [Entry(key, UserLine(t, web, message, code))]
  {
  }

  /** Taking one more element of the set keeps the walk an enumeration of what has been taken. */
  lemma WalkStep(order: seq<int>, rest: set<int>, codes: set<int>, code: int)
    requires Distinct(order) && rest !! Elems(order) && rest + Elems(order) == codes && code in rest
    ensures Elems(order + [code]) == Elems(order) + {code} && code !in Elems(order)
    ensures Distinct(order + [code]) && rest - {code} !! Elems(order + [code]) && (rest - {code}) + Elems(order + [code]) == codes
  {
    assert Elems(order + [code]) == Elems(order) + {code};
  }

  /** One more user handled, from tables where that user was not yet handled: the closed forms grow by one step, and the user's line is as before the change. */
  lemma ChangedStep(t0: Tables, web: map<int, string>, d: Detail, o: Owner, done: set<int>, code: int, message: string)
    requires code !in done
    ensures var s := ChangedTables(t0, web, d, o, done);
      && ChangedTables(t0, web, d, o, done + {code})
           == s.(users := WithDefault(s.users, code, UserRow(UnknownCountry, NoDate)),
                 aliases := KeepAlias(s.aliases, web, code), members := Applied(s.members, d, o, code))
      && UserLine(s, web, message, code) == UserLine(t0, web, message, code)
  {
    UsersStep(t0.users, done, code);
    AliasesStep(t0.aliases, web, done, code);
    MembersStep(t0.members, d, o, done, code);
    UserLineFrame(ChangedTables(t0, web, d, o, done), t0, web, message, code);
  }

  /**
   * `report_ff_change`: for each user of the set, in the set's own order,
   * the user made if missing, the alias chosen (and the page's kept when
   * the user had none), a line under `key`, and the membership row written.
   * `order` is the order the set was walked in.
   */
  method ReportChange(db: ReadMeDb, reportGen: ReportGen, key: string, message: string, d: Detail, o: Owner,
                      codes: set<int>, web: map<int, string>) returns (ghost order: seq<int>)
    modifies db`session, reportGen`report
    ensures Enumerates(order, codes)
    ensures db.session == ChangedTables(old(db.session), web, d, o, codes)
    ensures reportGen.report == RecordAll(old(reportGen.report), ChangeEntries(key, old(db.session), web, message, order))
  {
    ghost var t0 := db.session;
    ghost var r0 := reportGen.report;
    order := [];
    var rest := codes;
    assert Elems(order) == {};
    ChangedNone(t0, web, d, o);
    while rest != {}
      invariant Distinct(order) && rest !! Elems(order) && rest + Elems(order) == codes
      invariant db.session == ChangedTables(t0, web, d, o, Elems(order))
      invariant reportGen.report == RecordAll(r0, ChangeEntries(key, t0, web, message, order))
      decreases |rest|
    {
      // Pick shows the set non-empty, which the `:|` below needs.
      ghost var w := Pick(rest);
      var code :| code in rest;
      WalkStep(order, rest, codes, code);
      ChangeNext(db, reportGen, key, message, d, o, web, code, t0, r0, order);
      order := order + [code];
      rest := rest - {code};
    }
  }

  /** One turn of `ReportChange`: a user not yet handled is handled, and the closed forms grow by that user. */
  method ChangeNext(db: ReadMeDb, reportGen: ReportGen, key: string, message: string, d: Detail, o: Owner,
                    web: map<int, string>, code: int, ghost t0: Tables, ghost r0: map<string, seq<string>>,
                    ghost order: seq<int>)
    requires code !in Elems(order) && Elems(order + [code]) == Elems(order) + {code}
    requires db.session == ChangedTables(t0, web, d, o, Elems(order))
    requires reportGen.report == RecordAll(r0, ChangeEntries(key, t0, web, message, order))
    modifies db`session, reportGen`report
    ensures db.session == ChangedTables(t0, web, d, o, Elems(order + [code]))
    ensures reportGen.report == RecordAll(r0, ChangeEntries(key, t0, web, message, order + [code]))
  {
    ChangedStep(t0, web, d, o, Elems(order), code, message);
    ChangeEntriesSnoc(key, t0, web, message, order, code);
    ChangeOne(db, reportGen, key, message, d, o, code, web);
  }

  /** The message of a change line: the optional title prefix, the detail and a space. */
  function Message(prefix: string, d: Detail): string
  {
    prefix + DetailText(d) + " "
  }

  /** Handling no users changes nothing. */
  lemma ChangedNone(t: Tables, web: map<int, string>, d: Detail, o: Owner)
    ensures ChangedTables(t, web, d, o, {}) == t
  {
    assert UsersWith(t.users, {}) == t.users;
    assert NewAliases(t.aliases, web, {}) == {};
    assert AliasesWith(t.aliases, web, {}) == t.aliases;
    assert Rows(d.list, o, {}) == {};
  }

  /** The tables once a list is compared: the users who joined handled with the page's aliases, then those who left. */
  function Compared(t: Tables, web: WebUsers, l: List, o: Owner): Tables
  {
    var stored := Codes(t.members, l, o);
    ChangedTables(ChangedTables(t, web.aliases, Detail(l, true), o, web.ids - stored), map[], Detail(l, false), o, stored - web.ids)
  }

  /** After a comparison the stored list is the page's list, and no other list has moved. */
  lemma ComparedMembers(t: Tables, web: WebUsers, l: List, o: Owner)
    ensures Codes(Compared(t, web, l, o).members, l, o) == web.ids
    ensures forall l', o' :: (l', o') != (l, o) ==> Codes(Compared(t, web, l, o).members, l', o') == Codes(t.members, l', o')
  {
    var stored := Codes(t.members, l, o);
    var m1 := t.members + Rows(l, o, web.ids - stored);
    RowsCodes(t.members, l, o, web.ids - stored);
    RowsCodes(m1, l, o, stored - web.ids);
  }

  /** `ComparedMembers` for one list: the compared list is the page's, any other is as it was. */
  lemma ComparedCodes(t: Tables, web: WebUsers, l: List, o: Owner, l': List, o': Owner)
    ensures Codes(Compared(t, web, l, o).members, l', o') == if l' == l && o' == o then web.ids else Codes(t.members, l', o')
  {
    ComparedMembers(t, web, l, o);
  }

  /** Every user who joined or left has a row afterwards, and no existing row changed. */
  lemma ComparedUsers(t: Tables, web: WebUsers, l: List, o: Owner)
    ensures var stored := Codes(t.members, l, o);
      Compared(t, web, l, o).users.Keys == t.users.Keys + (web.ids - stored) + (stored - web.ids)
    ensures forall c :: c in t.users ==> Compared(t, web, l, o).users[c] == t.users[c]
  {
  }

  /** An alias is kept only for a joined user who had none and whose page shows one. */
  lemma ComparedAliases(t: Tables, web: WebUsers, l: List, o: Owner, c: int)
    ensures var stored := Codes(t.members, l, o);
      Get(Compared(t, web, l, o).aliases, c, []) ==
        if c in web.ids - stored && Get(t.aliases, c, []) == [] && Get(web.aliases, c, NewUser) != NewUser
        then [web.aliases[c]] else Get(t.aliases, c, [])
  {
  }

  /** Two runs of entries under one key: their lines, in order, under that key and nothing elsewhere. */
  lemma TwoRunsLines(r: map<string, seq<string>>, key: string, first: seq<string>, second: seq<string>, k: string)
    ensures LinesOf(RecordAll(RecordAll(r, Entries(key, first)), Entries(key, second)), k)
      == LinesOf(r, k) + if k == key then first + second else []
  {
    RecordAllLines(RecordAll(r, Entries(key, first)), Entries(key, second), k);
    RecordAllLines(r, Entries(key, first), k);
    EntriesLines(key, first, k);
    EntriesLines(key, second, k);
  }

  /** The report once a list is compared, given the order each set of changed users was walked in. */
  function ComparisonReport(r: map<string, seq<string>>, t: Tables, web: WebUsers, key: string, prefix: string,
                            l: List, added: seq<int>, removed: seq<int>): map<string, seq<string>>
  {
    RecordAll(RecordAll(r, ChangeEntries(key, t, web.aliases, Message(prefix, Detail(l, true)), added)),
              ChangeEntries(key, t, map[], Message(prefix, Detail(l, false)), removed))
  }

  /**
   * A comparison adds one line under its key per user who joined or left,
   * joiners first, and no line under any other key.
   */
  lemma ComparisonLines(r: map<string, seq<string>>, t: Tables, web: WebUsers, key: string, prefix: string,
                        l: List, o: Owner, added: seq<int>, removed: seq<int>, k: string)
    requires var stored := Codes(t.members, l, o);
      Enumerates(added, web.ids - stored) && Enumerates(removed, stored - web.ids)
    ensures LinesOf(ComparisonReport(r, t, web, key, prefix, l, added, removed), k) == LinesOf(r, k) +
      if k == key then ChangeLines(t, web.aliases, Message(prefix, Detail(l, true)), added)
                       + ChangeLines(t, map[], Message(prefix, Detail(l, false)), removed)
      else []
    ensures var stored := Codes(t.members, l, o);
      |LinesOf(ComparisonReport(r, t, web, key, prefix, l, added, removed), key)|
        == |LinesOf(r, key)| + |web.ids - stored| + |stored - web.ids|
  {
    TwoRunsLines(r, key, ChangeLines(t, web.aliases, Message(prefix, Detail(l, true)), added),
                 ChangeLines(t, map[], Message(prefix, Detail(l, false)), removed), k);
    TwoRunsLines(r, key, ChangeLines(t, web.aliases, Message(prefix, Detail(l, true)), added),
                 ChangeLines(t, map[], Message(prefix, Detail(l, false)), removed), key);
    DistinctSize(added);
    DistinctSize(removed);
  }

  /** A list that already matches the page is left as it is. */
  lemma ComparedNoop(t: Tables, web: WebUsers, l: List, o: Owner)
    requires Codes(t.members, l, o) == web.ids
    ensures Compared(t, web, l, o) == t
  {
    ChangedNone(t, web.aliases, Detail(l, true), o);
    ChangedNone(t, map[], Detail(l, false), o);
  }

  /**
   * A list brought level with the page's users: those who joined reported
   * and added, then those who left reported and deleted. The lines of both
   * passes show each user as the tables stood before.
   */
  method ApplyComparison(db: ReadMeDb, reportGen: ReportGen, key: string, prefix: string, l: List, o: Owner,
                         web: WebUsers) returns (ghost added: seq<int>, ghost removed: seq<int>)
    modifies db`session, reportGen`report
    ensures var stored := Codes(old(db.session).members, l, o);
      Enumerates(added, web.ids - stored) && Enumerates(removed, stored - web.ids)
    ensures db.session == Compared(old(db.session), web, l, o)
    ensures reportGen.report == RecordAll(RecordAll(old(reportGen.report),
      ChangeEntries(key, old(db.session), web.aliases, Message(prefix, Detail(l, true)), added)),
      ChangeEntries(key, old(db.session), map[], Message(prefix, Detail(l, false)), removed))
  {
    added, removed := [], [];
    var dbSet := Codes(db.session.members, l, o);
    var addedSet := web.ids - dbSet;
    var removedSet := dbSet - web.ids;
    ghost var t0 := db.session;
    var addMsg, remMsg := Message(prefix, Detail(l, true)), Message(prefix, Detail(l, false));
    ChangedNone(t0, web.aliases, Detail(l, true), o);
    if addedSet != {} {
      added := ReportChange(db, reportGen, key, addMsg, Detail(l, true), o, addedSet, web.aliases);
    }
    ghost var t1 := db.session;
    ChangedNone(t1, map[], Detail(l, false), o);
    if removedSet != {} {
      removed := ReportChange(db, reportGen, key, remMsg, Detail(l, false), o, removedSet, map[]);
    }
    forall c | c in removed
      ensures c !in addedSet
    {
      assert c in Elems(removed);
    }
    ChangeEntriesFrame(key, t1, t0, map[], remMsg, removed);
  }

  /**
   * One list compared (the loop body of `check_fav_follow_changes`, and
   * `print_favs` / `print_follows`): the page fetched and read, and the
   * stored list brought level with it; a failed fetch or read changes
   * nothing.
   */
  method CompareList(getter: FanfictionGetter, db: ReadMeDb, reportGen: ReportGen, req: Request,
                     key: string, prefix: string, l: List, o: Owner)
    returns (fault: Option<Fault>, ghost added: seq<int>, ghost removed: seq<int>)
    modifies getter`log, db`session, reportGen`report
    ensures getter.log == old(getter.log) + [req]
    ensures fault.Some? <==> WebFrom(getter.serve(req)).Err?
    ensures fault.Some? ==> (fault.value == WebFrom(getter.serve(req)).fault
      && db.session == old(db.session) && reportGen.report == old(reportGen.report))
    ensures fault.None? ==>
      var web := WebFrom(getter.serve(req)).value;
      var stored := Codes(old(db.session).members, l, o);
      && Enumerates(added, web.ids - stored) && Enumerates(removed, stored - web.ids)
      && db.session == Compared(old(db.session), web, l, o)
      && reportGen.report == RecordAll(RecordAll(old(reportGen.report),
           ChangeEntries(key, old(db.session), web.aliases, Message(prefix, Detail(l, true)), added)),
           ChangeEntries(key, old(db.session), map[], Message(prefix, Detail(l, false)), removed))
  {
    added, removed := [], [];
    var web := GetWebUsers(getter, req);
    if web.Err? {
      return Some(web.fault), added, removed;
    }
    added, removed := ApplyComparison(db, reportGen, key, prefix, l, o, web.value);
    fault := None;
  }
}
