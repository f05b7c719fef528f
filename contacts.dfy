/** The contacts page (script/contacts.js) and the contact record builder and list-entry
    test next to it (script/contactsTemplate.js): the deduplicating cache load, the duplicate
    check that gates writes, the two record shapes, initials, id choice, add, edit and delete. */
module Contacts {
  import opened Model
  import opened Text
  import opened Script

  // ---------------------------------------------------------------------------------------
  // Initials and the generated avatar

  /** `word.charAt(0).toUpperCase()`: the empty word contributes nothing. */
  function Initial(word: string): (r: string)
    ensures |r| <= 1
    ensures r == [] <==> word == []
    ensures word != [] ==> r[0] == Upper(word[0])
  {
    if word == [] then [] else [Upper(word[0])]
  }

  /** The initials of the words, in order, joined. */
  function Initials(words: seq<string>): (r: string)
    ensures |r| <= |words|
  {
    if words == [] then [] else Initial(words[0]) + Initials(words[1..])
  }

  /** `filterFirstLetters`: split the name at single spaces and keep the upper-cased first
      character of each piece; there is at most one initial per piece. */
  function FilterFirstLetters(name: string): (r: string)
    ensures |r| <= Occurrences(name, ' ') + 1
  {
    SplitCount(name);
    Initials(Split(name))
  }

  lemma {:induction false} InitialsAppend(u: seq<string>, v: seq<string>)
    ensures Initials(u + v) == Initials(u) + Initials(v)
  {
    if u == [] {
      assert u + v == v;
    } else {
      assert (u + v)[0] == u[0];
      assert (u + v)[1..] == u[1..] + v;
      InitialsAppend(u[1..], v);
    }
  }

  /** Initials are taken word by word: the initials of "first last" are those of "first"
      followed by those of "last". */
  lemma FirstLettersJoin(a: string, b: string)
    ensures FilterFirstLetters(a + [' '] + b) == FilterFirstLetters(a) + FilterFirstLetters(b)
  {
    SplitJoin(a, b);
    InitialsAppend(Split(a), Split(b));
  }

  /** A name without spaces has exactly one initial when it is non-empty and none otherwise. */
  lemma FirstLettersOneWord(w: string)
    requires ' ' !in w
    ensures FilterFirstLetters(w) == Initial(w)
  {
    assert Split(w) == [w];
    assert Initials([w]) == Initial(w) + Initials([]);
  }

  /** `generateSvgCircleWithInitials(name, 120, 120)` without its random fill colour and
      its geometry: a circle picture holding the name's initials. */
  function Avatar(name: string): (r: string)
    ensures r != []
  {
    "<svg class=\"profilePic\"><text>" + FilterFirstLetters(name) + "</text></svg>"
  }

  // ---------------------------------------------------------------------------------------
  // The two record shapes

  /** `pushToContacts`: the stored shape (`mail`, `number`) becomes the cached shape (`email`,
      `phone`), the initials are recomputed from the name and a missing picture is generated. */
  function PushToContacts(s: StoredContact): (c: Contact)
    ensures c.id == s.id && c.name == s.name && c.email == s.mail && c.phone == s.number && c.isUser == s.isUser
    ensures c.firstLetters == FilterFirstLetters(s.name)
    ensures c.profilePic != [] && (s.profilePic != "" ==> c.profilePic == s.profilePic)
  {
    Contact(s.id, s.name, s.mail, s.number,
            if s.profilePic != "" then s.profilePic else Avatar(s.name),
            FilterFirstLetters(s.name), s.isUser)
  }

  /** The cached shape written back under the stored field names. */
  function StoredOf(c: Contact): (s: StoredContact)
    ensures s.id == c.id
  {
    StoredContact(c.id, c.name, c.email, c.phone, c.profilePic, c.firstLetters, c.isUser)
  }

  /** A stored record with a picture and with the initials of its name survives the trip to
      the cached shape and back unchanged: the two shapes differ only in field names. */
  lemma PushToContactsRoundTrip(s: StoredContact)
    requires s.profilePic != "" && s.firstLetters == FilterFirstLetters(s.name)
    ensures StoredOf(PushToContacts(s)) == s
  {
  }

  /** ... and so does a cached record with a picture and with the initials of its name. */
  lemma StoredOfRoundTrip(c: Contact)
    requires c.profilePic != "" && c.firstLetters == FilterFirstLetters(c.name)
    ensures PushToContacts(StoredOf(c)) == c
  {
  }

  /** The record `createContact` builds once its id is chosen: initials from the name, the
      given picture unless it is empty (or `false`), the fields copied as they are. */
  function NewRecord(id: int, name: string, email: string, phone: string, profilePic: string, isUser: bool)
    : (s: StoredContact)
    ensures s.id == id && s.name == name && s.mail == email && s.number == phone && s.isUser == isUser
    ensures s.firstLetters == FilterFirstLetters(name)
    ensures s.profilePic != ""
    ensures profilePic != "" ==> s.profilePic == profilePic
  {
    StoredContact(id, name, email, phone, if profilePic != "" then profilePic else Avatar(name),
                  FilterFirstLetters(name), isUser)
  }

  /** A freshly built record reaches the cache with every field it was given. */
  lemma NewRecordCached(id: int, name: string, email: string, phone: string, profilePic: string, isUser: bool)
    ensures var c := PushToContacts(NewRecord(id, name, email, phone, profilePic, isUser));
      && StoredOf(c) == NewRecord(id, name, email, phone, profilePic, isUser)
      && c.email == email && c.phone == phone && c.firstLetters == FilterFirstLetters(name)
  {
    PushToContactsRoundTrip(NewRecord(id, name, email, phone, profilePic, isUser));
  }

  /** The id `createContact` uses: a truthy (non-zero) id is kept; otherwise the last cached
      contact's id plus one, which does not exist when the cache is empty. */
  function ChooseId(id: int, contacts: seq<Contact>): (r: Option<int>)
    ensures id != 0 ==> r == Some(id)
    ensures id == 0 ==> (r.None? <==> contacts == [])
  {
    if id != 0 then Some(id)
    else if contacts == [] then None
    else Some(contacts[|contacts| - 1].id + 1)
  }

  /** Ids rise along the cache. */
  predicate Ascending(contacts: seq<Contact>) {
    forall i, j :: 0 <= i < j < |contacts| ==> contacts[i].id < contacts[j].id
  }

  /** The new-id rule takes the last id, not the largest: only while ids rise along the cache
      is the chosen id a fresh one, and appending the new contact keeps them rising. */
  lemma ChosenIdFresh(contacts: seq<Contact>, c: Contact)
    requires Ascending(contacts) && contacts != []
    requires Some(c.id) == ChooseId(0, contacts)
    ensures FindContact(contacts, c.id) == -1
    ensures Ascending(contacts + [c])
  {
  }

  /** The new-id rule can pick an id that is already taken once ids do not rise: after the
      cache [ids 1, 2, 0] the next id is 1. */
  lemma ChosenIdTaken(a: Contact, b: Contact, z: Contact)
    requires a.id == 1 && b.id == 2 && z.id == 0
    ensures ChooseId(0, [a, b, z]) == Some(1) && FindContact([a, b, z], 1) == 0
  {
  }

  // ---------------------------------------------------------------------------------------
  // Loading the cache

  /** One step of `setContactsArray`: skip an empty entry and an entry whose id is cached,
      append the cached shape of any other. */
  function AbsorbOne(cache: seq<Contact>, e: Option<StoredContact>): seq<Contact> {
    if e.None? || FindContact(cache, e.value.id) > -1 then cache else cache + [PushToContacts(e.value)]
  }

  /** `setContactsArray`: the loaded entries absorbed into the cache in order. */
  function Absorb(cache: seq<Contact>, load: seq<Option<StoredContact>>): seq<Contact>
    decreases |load|
  {
    if load == [] then cache else Absorb(AbsorbOne(cache, load[0]), load[1..])
  }

  /** Loading never repeats an id, whatever the load holds. */
  lemma {:induction false} AbsorbDistinct(cache: seq<Contact>, load: seq<Option<StoredContact>>)
    requires DistinctIds(cache)
    ensures DistinctIds(Absorb(cache, load))
    decreases |load|
  {
    if load != [] {
      var next := AbsorbOne(cache, load[0]);
      assert DistinctIds(next);
      AbsorbDistinct(next, load[1..]);
    }
  }

  /** The cache is only appended to: what was cached stays, in place. */
  lemma {:induction false} AbsorbPrefix(cache: seq<Contact>, load: seq<Option<StoredContact>>)
    ensures cache <= Absorb(cache, load)
    decreases |load|
  {
    if load != [] {
      AbsorbPrefix(AbsorbOne(cache, load[0]), load[1..]);
    }
  }

  /** An appended record keeps its position and id. */
  lemma FindContactExtend(cache: seq<Contact>, more: seq<Contact>, id: int)
    requires FindContact(cache, id) >= 0
    ensures FindContact(cache + more, id) == FindContact(cache, id)
  {
    var f := FindContact(cache, id);
    assert (cache + more)[f] == cache[f];
    assert forall k :: 0 <= k < f ==> (cache + more)[k] == cache[k];
  }

  /** Every id the load holds ends up cached, and the cached record for it is the one cached
      before or the first loaded entry with that id. */
  lemma {:induction false} AbsorbCovers(cache: seq<Contact>, load: seq<Option<StoredContact>>, k: nat)
    requires k < |load| && load[k].Some?
    ensures FindContact(Absorb(cache, load), load[k].value.id) >= 0
    decreases |load|
  {
    var next := AbsorbOne(cache, load[0]);
    var id := load[k].value.id;
    if k == 0 {
      assert FindContact(next, id) >= 0 by {
        if FindContact(cache, id) == -1 {
          assert next[|cache|].id == id;
        }
      }
      AbsorbPrefix(next, load[1..]);
      var r := Absorb(next, load[1..]);
      assert r == next + r[|next|..];
      FindContactExtend(next, r[|next|..], id);
    } else {
      AbsorbCovers(next, load[1..], k - 1);
    }
  }

  /** `getContactsData`: reset the cache, absorb the loaded entries and store the cache
      under the key "contacts". */
  method GetContactsData(app: App, load: seq<Option<StoredContact>>)
    requires app.Valid()
    modifies app`contacts, app`session
    ensures app.Valid()
    ensures app.contacts == Absorb([], load)
    ensures app.session == old(app.session)["contacts" := ContactsJson(app.contacts)]
  {
    app.contacts := [];
    SetContactsArray(app, load);
    app.session := app.session["contacts" := ContactsJson(app.contacts)];
  }

  /** `setContactsArray`: the loop over the loaded entries. */
  method SetContactsArray(app: App, load: seq<Option<StoredContact>>)
    modifies app`contacts
    ensures app.contacts == Absorb(old(app.contacts), load)
  {
    var i := 0;
    while i < |load|
      invariant 0 <= i <= |load|
      invariant Absorb(app.contacts, load[i..]) == Absorb(old(app.contacts), load)
    {
      assert load[i..][0] == load[i] && load[i..][1..] == load[i + 1..];
      var element := load[i];
      if element.None? {
      } else if FindContact(app.contacts, element.value.id) > -1 {
      } else {
        app.contacts := app.contacts + [PushToContacts(element.value)];
      }
      i := i + 1;
    }
  }

  /** The cache a contact-dependent operation works with: loaded when it is empty. */
  function Loaded(contacts: seq<Contact>, load: seq<Option<StoredContact>>): seq<Contact> {
    if contacts == [] then Absorb([], load) else contacts
  }

  /** The session after the same step: the loaded cache is stored under "contacts" when it
      was loaded. */
  function LoadedSession(session: map<string, Stored>, contacts: seq<Contact>, load: seq<Option<StoredContact>>)
    : map<string, Stored>
  {
    if contacts == [] then session["contacts" := ContactsJson(Absorb([], load))] else session
  }

  /** Loading a second time, from the cache the first load left, changes neither the cache
      nor the session any further. */
  lemma LoadedTwice(contacts: seq<Contact>, session: map<string, Stored>, load: seq<Option<StoredContact>>)
    ensures Loaded(Loaded(contacts, load), load) == Loaded(contacts, load)
    ensures LoadedSession(LoadedSession(session, contacts, load), Loaded(contacts, load), load)
            == LoadedSession(session, contacts, load)
  {
    if contacts == [] && Absorb([], load) == [] {
      var m := session["contacts" := ContactsJson([])];
      assert m["contacts" := ContactsJson([])] == m;
    }
  }

  // ---------------------------------------------------------------------------------------
  // The duplicate check

  /** What `checkAlreadyExists` reads of its argument: an id, a name and, for a record in the
      stored shape, a `mail` field (a cached record has none). */
  datatype Candidate = Candidate(id: int, name: string, mail: Option<string>)

  /** A cached contact of another id with the candidate's name, or with an e-mail equal to
      the candidate's `mail`. */
  predicate Clash(c: Contact, x: Candidate) {
    c.id != x.id && (c.name == x.name || x.mail == Some(c.email))
  }

  /** `checkAlreadyExists`: true iff no cached contact clashes with the candidate. */
  method CheckAlreadyExists(contacts: seq<Contact>, x: Candidate) returns (ok: bool)
    ensures ok <==> forall k :: 0 <= k < |contacts| ==> !Clash(contacts[k], x)
  {
    var i := 0;
    while i < |contacts|
      invariant 0 <= i <= |contacts|
      invariant forall k :: 0 <= k < i ==> !Clash(contacts[k], x)
    {
      var c := contacts[i];
      if (c.name == x.name && c.id != x.id) || (Some(c.email) == x.mail && c.id != x.id) {
        return false;
      }
      i := i + 1;
    }
    return true;
  }

  /** A candidate built from a cached record has no `mail`: only a name clash rejects it. */
  lemma CachedCandidateNameOnly(contacts: seq<Contact>, c: Contact)
    ensures (forall k :: 0 <= k < |contacts| ==> !Clash(contacts[k], Candidate(c.id, c.name, None)))
        <==> (forall k :: 0 <= k < |contacts| ==> contacts[k].id == c.id || contacts[k].name != c.name)
  {
  }

  // ---------------------------------------------------------------------------------------
  // Building, adding, editing and deleting contacts

  /** `createContact`: build the stored-shape record; a falsy id is replaced by the last
      cached id plus one, loading the cache first when it is empty. None: the cache is still
      empty after loading, so reading its last element fails. */
  method CreateContact(app: App, id: int, name: string, email: string, phone: string,
                       profilePic: string, isUser: bool, load: seq<Option<StoredContact>>)
    returns (r: Option<StoredContact>)
    requires app.Valid()
    modifies app`contacts, app`session
    ensures app.Valid()
    ensures id != 0 || old(app.contacts) != [] ==> app.contacts == old(app.contacts) && app.session == old(app.session)
    ensures id == 0 && old(app.contacts) == [] ==>
      app.contacts == Absorb([], load) && app.session == old(app.session)["contacts" := ContactsJson(app.contacts)]
    ensures r.None? <==> ChooseId(id, app.contacts).None?
    ensures r.Some? ==> r.value == NewRecord(ChooseId(id, app.contacts).value, name, email, phone, profilePic, isUser)
  {
    var newId: int;
    if id != 0 {
      newId := id;
    } else {
      if |app.contacts| == 0 {
        GetContactsData(app, load);
        if |app.contacts| == 0 {
          return None;
        }
      }
      newId := app.contacts[|app.contacts| - 1].id + 1;
    }
    r := Some(NewRecord(newId, name, email, phone, profilePic, isUser));
  }

  /** `addContacts`: build the record under the given id, and only if no cached contact
      clashes with it write it to `contacts/{id}` and append its cached shape. Returns true
      when building the record failed. */
  method AddContacts(app: App, id: int, name: string, email: string, phone: string,
                     load: seq<Option<StoredContact>>)
    returns (failed: bool)
    requires app.Valid()
    modifies app`contacts, app`session, app`log
    ensures app.Valid()
    ensures var cache := if id == 0 then Loaded(old(app.contacts), load) else old(app.contacts);
      var session := if id == 0 then LoadedSession(old(app.session), old(app.contacts), load) else old(app.session);
      var rid := ChooseId(id, cache);
      && (failed <==> rid.None?)
      && (!failed ==>
            var s := NewRecord(rid.value, name, email, phone, "", false);
            if forall k :: 0 <= k < |cache| ==> !Clash(cache[k], Candidate(s.id, s.name, Some(s.mail)))
            then app.contacts == cache + [PushToContacts(s)]
                 && app.log == old(app.log) + [Put(ContactAt(id), ContactBody(s))]
                 && app.session == session["contacts" := ContactsJson(app.contacts)]
            else app.contacts == cache && app.log == old(app.log) && app.session == session)
      && (failed ==> app.contacts == cache && app.log == old(app.log) && app.session == session)
  {
    var r := CreateContact(app, id, name, email, phone, "", false, load);
    if r.None? {
      return true;
    }
    var s := r.value;
    var ok := CheckAlreadyExists(app.contacts, Candidate(s.id, s.name, Some(s.mail)));
    if ok {
      app.log := app.log + [Put(ContactAt(id), ContactBody(s))];
      app.contacts := app.contacts + [PushToContacts(s)];
      app.session := app.session["contacts" := ContactsJson(app.contacts)];
    }
    return false;
  }

  /** `editContacts`: overwrite the cached contact's name, e-mail and phone, then check it
      for clashes; if it passes, rebuild the stored record (a new picture iff the name
      changed), copy its picture into the cache and write it to `contacts/{id}`. The cached
      initials are not recomputed. Returns true when no contact has the id. */
  method EditContacts(app: App, id: int, name: string, email: string, phone: string,
                      load: seq<Option<StoredContact>>)
    returns (failed: bool)
    requires app.Valid()
    modifies app`contacts, app`session, app`log
    ensures app.Valid()
    ensures failed <==> FindContact(old(app.contacts), id) == -1
    ensures failed ==> app.contacts == old(app.contacts) && app.log == old(app.log)
    ensures app.session == old(app.session)
    ensures !failed ==>
      var f := FindContact(old(app.contacts), id);
      var before := old(app.contacts)[f];
      var nameChange := name != before.name;
      var edited := before.(name := name, email := email, phone := phone);
      var cache := old(app.contacts)[f := edited];
      if forall k :: 0 <= k < |cache| ==> !Clash(cache[k], Candidate(id, name, None)) then
        var s := NewRecord(ChooseId(id, cache).value, name, email, phone,
                           if nameChange then "" else before.profilePic, before.isUser);
        && app.contacts == cache[f := edited.(profilePic := s.profilePic)]
        && app.log == old(app.log) + [Put(ContactAt(id), ContactBody(s))]
      else
        app.contacts == cache && app.log == old(app.log)
  {
    var f := FindContact(app.contacts, id);
    if f == -1 {
      return true;
    }
    var nameChange := name != app.contacts[f].name;
    app.contacts := app.contacts[f := app.contacts[f].(name := name, email := email, phone := phone)];
    var contact := app.contacts[f];
    var ok := CheckAlreadyExists(app.contacts, Candidate(contact.id, contact.name, None));
    if ok {
      var r := CreateContact(app, contact.id, name, email, phone,
                             if nameChange then "" else contact.profilePic, contact.isUser, load);
      var s := r.value;
      app.contacts := app.contacts[f := app.contacts[f].(profilePic := s.profilePic)];
      app.log := app.log + [Put(ContactAt(id), ContactBody(s))];
    }
    return false;
  }

  /** The picture an accepted edit leaves: a new one exactly when the name changed (or the
      old one was empty), the old one otherwise. */
  lemma EditedPicture(before: Contact, name: string, email: string, phone: string, newId: int)
    ensures var s := NewRecord(newId, name, email, phone,
                               if name != before.name then "" else before.profilePic, before.isUser);
      && (name != before.name || before.profilePic == "" ==> s.profilePic == Avatar(name))
      && (name == before.name && before.profilePic != "" ==> s.profilePic == before.profilePic)
  {
  }

  /** `splice(i, 1)` on a sequence: a negative start counts from the end, so -1 removes the
      last element; an empty sequence is left as it is. */
  function SpliceOne<T>(s: seq<T>, i: int): (r: seq<T>)
    requires -1 <= i < |s|
    ensures s != [] ==> |r| == |s| - 1
    ensures s == [] ==> r == []
  {
    if s == [] then []
    else if i == -1 then s[..|s| - 1]
    else s[..i] + s[i + 1..]
  }

  /** Deleting a cached id removes exactly that contact: the id is gone, the others stay in
      order and ids stay distinct. */
  lemma DeleteCached(contacts: seq<Contact>, id: int)
    requires DistinctIds(contacts) && FindContact(contacts, id) >= 0
    ensures var f := FindContact(contacts, id); var r := SpliceOne(contacts, f);
      && FindContact(r, id) == -1 && DistinctIds(r)
      && r == contacts[..f] + contacts[f + 1..]
      && forall k :: 0 <= k < |contacts| && contacts[k].id != id ==> contacts[k] in r
  {
    var f := FindContact(contacts, id);
    var r := SpliceOne(contacts, f);
    forall k | 0 <= k < |r| ensures r[k].id != id {
      if k < f {
        assert r[k] == contacts[k];
      } else {
        assert r[k] == contacts[k + 1];
      }
    }
    forall k | 0 <= k < |contacts| && contacts[k].id != id ensures contacts[k] in r {
      if k < f {
        assert r[k] == contacts[k];
      } else {
        assert r[k - 1] == contacts[k];
      }
    }
  }

  /** Deleting an id that is not cached removes the last contact instead. */
  lemma DeleteAbsent(contacts: seq<Contact>, id: int)
    requires contacts != [] && FindContact(contacts, id) == -1
    ensures SpliceOne(contacts, FindContact(contacts, id)) == contacts[..|contacts| - 1]
  {
  }

  /** `deleteContacts`: splice the contact out at `findIndex`, delete `contacts/{id}`, store
      the cache and log out iff the id is the current user's. Returns true when there is no
      current user, whose id cannot be read (after the delete has happened). */
  method DeleteContacts(app: App, id: int) returns (failed: bool)
    requires app.Valid()
    modifies app`contacts, app`session, app`log, app`loggedOut
    ensures app.Valid()
    ensures app.contacts == SpliceOne(old(app.contacts), FindContact(old(app.contacts), id))
    ensures app.log == old(app.log) + [Delete(ContactAt(id))]
    ensures app.session == old(app.session)["contacts" := ContactsJson(app.contacts)]
    ensures failed <==> app.currentUser.None?
    ensures app.loggedOut == (old(app.loggedOut)
      || (app.currentUser.Some? && UserId(app.currentUser.value) == Some(id)))
  {
    var f := FindContact(app.contacts, id);
    app.contacts := SpliceOne(app.contacts, f);
    app.log := app.log + [Delete(ContactAt(id))];
    app.session := app.session["contacts" := ContactsJson(app.contacts)];
    if app.currentUser.None? {
      return true;
    }
    if UserId(app.currentUser.value) == Some(id) {
      app.loggedOut := true;
    }
    return false;
  }

  /** `openAddContacts`: the id offered to the add form is the last cached id plus one.
      Returns true when the cache is empty and that id cannot be read. */
  method OpenAddContacts(app: App) returns (failed: bool)
    modifies app`editId
    ensures failed <==> app.contacts == []
    ensures !failed ==> Some(app.editId) == ChooseId(0, app.contacts)
    ensures failed ==> app.editId == old(app.editId)
  {
    if |app.contacts| == 0 {
      return true;
    }
    app.editId := app.contacts[|app.contacts| - 1].id + 1;
    return false;
  }

  /** The "(you)" marker of a contact-list entry: shown iff the contact's id is the current
      user's (a guest has no id, so never for a guest). */
  function YouMarker(c: Contact, user: User): (r: string)
    ensures r != "" <==> UserId(user) == Some(c.id)
  {
    if user.Member? && c.id == user.record.id then "(you)" else ""
  }
}
