/**
 * The contacts page: the user's contact list, a username search whose results
 * leave out people who are already contacts, and adding and removing contacts.
 */
module Contacts {
  import opened Wrappers
  import opened Seqs
  import opened Text
  import opened Backend

  /** A row of the `contacts` table: `userId` knows `contactUserId`. */
  datatype Contact = Contact(id: string, userId: string, contactUserId: string, contactUsername: string)

  /** The contact row the client asks the backend to insert; the backend adds its id. */
  datatype NewContact = NewContact(userId: string, contactUserId: string, contactUsername: string)

  /** A row of the `users` table as the search returns it. */
  datatype User = User(id: string, username: string, email: string)

  /** Some contact points at the user with this id: an entry of the list, wherever it sits. */
  function IsContact(contacts: seq<Contact>, userId: string): (r: bool)
    ensures r <==> exists c :: c in contacts && c.contactUserId == userId
  {
    exists i :: 0 <= i < |contacts| && contacts[i].contactUserId == userId
  }

  /** `contacts.map(c => c.contact_user_id)`: one id per contact, holding exactly the ids of the contacted users. */
  function ContactUserIds(contacts: seq<Contact>): (ids: seq<string>)
    ensures |ids| == |contacts|
    ensures forall id :: id in ids <==> IsContact(contacts, id)
  {
    var ids := seq(|contacts|, i requires 0 <= i < |contacts| => contacts[i].contactUserId);
    assert forall i :: 0 <= i < |contacts| ==> ids[i] == contacts[i].contactUserId;
    ids
  }

  /** The search results without anybody who is already a contact, in the server's order. */
  function ExcludeContacts(found: seq<User>, contacts: seq<Contact>): (r: seq<User>)
    ensures |r| <= |found|
    ensures forall u :: u in r <==> u in found && !IsContact(contacts, u.id)
  {
    var ids := ContactUserIds(contacts);
    Filter(found, (u: User) => u.id !in ids)
  }

  /** Excluding contacts keeps the order of the results: it acts on each part separately. */
  lemma ExcludeContactsKeepsOrder(a: seq<User>, b: seq<User>, contacts: seq<Contact>)
    ensures ExcludeContacts(a + b, contacts) == ExcludeContacts(a, contacts) + ExcludeContacts(b, contacts)
  {
    var ids := ContactUserIds(contacts);
    FilterConcat(a, b, (u: User) => u.id !in ids);
  }

  /** The results after adding `userId`: that user is gone, the others stay in order. */
  function WithoutUser(results: seq<User>, userId: string): (r: seq<User>)
    ensures |r| <= |results|
    ensures forall u :: u in r <==> u in results && u.id != userId
  {
    Filter(results, (u: User) => u.id != userId)
  }

  /** The contact list after removing `contactId`: every entry with that id is gone. */
  function WithoutContact(contacts: seq<Contact>, contactId: string): (r: seq<Contact>)
    ensures |r| <= |contacts|
    ensures forall c :: c in r <==> c in contacts && c.id != contactId
  {
    Filter(contacts, (c: Contact) => c.id != contactId)
  }

  /** Removing a contact keeps the other contacts in order. */
  lemma WithoutContactKeepsOrder(a: seq<Contact>, b: seq<Contact>, contactId: string)
    ensures WithoutContact(a + b, contactId) == WithoutContact(a, contactId) + WithoutContact(b, contactId)
  {
    FilterConcat(a, b, (c: Contact) => c.id != contactId);
  }

  /** Removing contacts can only shrink the set of people who are contacts. */
  lemma WithoutContactShrinks(contacts: seq<Contact>, contactId: string, userId: string)
    requires IsContact(WithoutContact(contacts, contactId), userId)
    ensures IsContact(contacts, userId)
  {
    var r := WithoutContact(contacts, contactId);
    var i :| 0 <= i < |r| && r[i].contactUserId == userId;
    assert r[i] in contacts;
  }

  class ContactsPage {
    var contacts: seq<Contact>
    var searchQuery: string
    var searchResults: seq<User>
    var searching: bool
    var currentUser: Option<User>

    /** Nobody in the search results is already a contact. */
    ghost predicate Valid()
      reads this
    {
      forall u :: u in searchResults ==> !IsContact(contacts, u.id)
    }

    /** The page once its contact list and the user's profile have been loaded. */
    constructor (contacts: seq<Contact>, currentUser: Option<User>)
      ensures Valid()
      ensures this.contacts == contacts && this.currentUser == currentUser
      ensures searchQuery == [] && searchResults == [] && !searching
    {
      this.contacts, this.currentUser := contacts, currentUser;
      searchQuery, searchResults, searching := [], [], false;
    }

    /** Typing in the search box. */
    method EditQuery(query: string)
      requires Valid()
      modifies this`searchQuery
      ensures Valid() && searchQuery == query
    {
      searchQuery := query;
    }

    /**
     * `searchUsers`: a blank query or a missing profile makes it a no-op;
     * otherwise, unless the query fails, the results become the users found
     * minus existing contacts (a null answer gives none). `searching` ends false.
     */
    method SearchUsers(reply: Reply<seq<User>>) returns (queried: bool)
      requires Valid()
      modifies this`searchResults, this`searching
      ensures Valid()
      ensures queried <==> Trim(searchQuery) != [] && currentUser.Some?
      ensures !queried ==> searchResults == old(searchResults) && searching == old(searching)
      ensures queried ==> !searching
      ensures queried && reply.Answer? && reply.error.None? ==>
                searchResults == if reply.data.Some? then ExcludeContacts(reply.data.value, contacts) else []
      ensures !(queried && reply.Answer? && reply.error.None?) ==> searchResults == old(searchResults)
    {
      queried := Trim(searchQuery) != [] && currentUser.Some?;
      if !queried {
        return;
      }
      searching := true;
      if reply.Answer? && reply.error.None? {
        searchResults := if reply.data.Some? then ExcludeContacts(reply.data.value, contacts) else [];
      }
      searching := false;
    }

    /**
     * `addContact`: with a profile loaded, insert a contact row for `user`. On
     * success (`newId` is the id the backend gave the row) the row goes to the
     * front of the list and `user` leaves the search results; on failure
     * neither list changes.
     */
    method AddContact(user: User, newId: Option<string>) returns (request: Option<NewContact>)
      requires Valid()
      modifies this`contacts, this`searchResults
      ensures Valid()
      ensures request.Some? <==> currentUser.Some?
      ensures request.Some? ==> request.value == NewContact(currentUser.value.id, user.id, user.username)
      ensures currentUser.Some? && newId.Some? ==>
                contacts == [Contact(newId.value, currentUser.value.id, user.id, user.username)] + old(contacts)
                && searchResults == WithoutUser(old(searchResults), user.id)
      ensures !(currentUser.Some? && newId.Some?) ==> contacts == old(contacts) && searchResults == old(searchResults)
    {
      if currentUser.None? {
        request := None;
        return;
      }
      request := Some(NewContact(currentUser.value.id, user.id, user.username));
      if newId.Some? {
        var before := contacts;
        contacts := [Contact(newId.value, currentUser.value.id, user.id, user.username)] + contacts;
        searchResults := WithoutUser(searchResults, user.id);
        assert forall i :: 0 < i < |contacts| ==> contacts[i] == before[i - 1];
      }
    }

    /**
     * `removeContact`: only after the user confirms and the backend deletes the
     * row does the contact leave the list.
     */
    method RemoveContact(contactId: string, confirmed: bool, delete: Ack)
      requires Valid()
      modifies this`contacts
      ensures Valid()
      ensures confirmed && delete.AckOk? ==> contacts == WithoutContact(old(contacts), contactId)
      ensures !(confirmed && delete.AckOk?) ==> contacts == old(contacts)
    {
      if confirmed && delete.AckOk? {
        var before := contacts;
        contacts := WithoutContact(contacts, contactId);
        forall u | u in searchResults ensures !IsContact(contacts, u.id) {
          if IsContact(contacts, u.id) {
            WithoutContactShrinks(before, contactId, u.id);
          }
        }
      }
    }
  }
}
