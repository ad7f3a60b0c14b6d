/**
  The contact list of the contacts screen: each contact pairs a display name
  with the shared secret key both devices use for it. A new contact is added
  from two text fields after trimming them; blank fields and a name already
  in the list are refused.
 */
module Contacts {
  import opened Wrappers

  datatype Contact = Contact(id: string, name: string, key: string)

  /**
    The characters JavaScript's `String.prototype.trim` removes: the
    ECMAScript WhiteSpace set (tab, vertical tab, form feed, the byte order
    mark and every space separator) and the LineTerminator set.
   */
  predicate IsWhitespace(c: char)
  {
    c == '\t' || c == '\n' || c == '\U{000B}' || c == '\U{000C}' || c == '\r'
    || c == ' ' || c == '\U{00A0}' || c == '\U{1680}'
    || ('\U{2000}' <= c <= '\U{200A}')
    || c == '\U{2028}' || c == '\U{2029}' || c == '\U{202F}' || c == '\U{205F}'
    || c == '\U{3000}' || c == '\U{FEFF}'
  }

  /** `s` without its leading whitespace: a suffix of `s`, cut exactly where the first other character is. */
  function TrimStart(s: string): (r: string)
    ensures |r| <= |s| && r == s[|s| - |r|..]
    ensures forall k :: 0 <= k < |s| - |r| ==> IsWhitespace(s[k])
    ensures r != [] ==> !IsWhitespace(r[0])
  {
    if s != [] && IsWhitespace(s[0]) then TrimStart(s[1..]) else s
  }

  /** `s` without its trailing whitespace: a prefix of `s`, cut exactly after the last other character. */
  function TrimEnd(s: string): (r: string)
    ensures |r| <= |s| && r == s[..|r|]
    ensures forall k :: |r| <= k < |s| ==> IsWhitespace(s[k])
    ensures r != [] ==> !IsWhitespace(r[|r| - 1])
  {
    if s != [] && IsWhitespace(s[|s| - 1]) then TrimEnd(s[..|s| - 1]) else s
  }

  /**
    `String.prototype.trim`: the slice of `s` left after removing whitespace
    at both ends. It is empty exactly when `s` is blank.
   */
  function Trim(s: string): (r: string)
    ensures r == [] <==> forall k :: 0 <= k < |s| ==> IsWhitespace(s[k])
    ensures r != [] ==> IsTrimmed(r)
  {
    TrimEnd(TrimStart(s))
  }

  /** A non-empty string with no whitespace at either end. */
  predicate IsTrimmed(s: string)
  {
    s != [] && !IsWhitespace(s[0]) && !IsWhitespace(s[|s| - 1])
  }

  /** A trimmed string is its own trim. */
  lemma TrimFixesTrimmed(s: string)
    requires IsTrimmed(s)
    ensures Trim(s) == s
  {
  }

  /** Trimming twice changes nothing more than trimming once. */
  lemma TrimIdempotent(s: string)
    ensures Trim(Trim(s)) == Trim(s)
  {
    if Trim(s) != [] {
      TrimFixesTrimmed(Trim(s));
    }
  }

  /**
    `contacts.find(c => c.name === name)`: the first contact with that name,
    or nothing when no contact has it.
   */
  function FindByName(contacts: seq<Contact>, name: string): (r: Option<Contact>)
    ensures r.None? <==> forall i :: 0 <= i < |contacts| ==> contacts[i].name != name
    ensures r.Some? ==> r.value in contacts && r.value.name == name
    ensures forall i :: 0 <= i < |contacts| && contacts[i].name == name
                        && (forall j :: 0 <= j < i ==> contacts[j].name != name)
                        ==> r == Some(contacts[i])
  {
    if contacts == [] then None
    else if contacts[0].name == name then Some(contacts[0])
    else
      var r := FindByName(contacts[1..], name);
      assert forall i :: 1 <= i < |contacts| ==> contacts[i] == contacts[1..][i - 1];
      r
  }

  /** No two contacts share a name. */
  predicate NamesDistinct(contacts: seq<Contact>)
  {
    forall i, j :: 0 <= i < j < |contacts| ==> contacts[i].name != contacts[j].name
  }

  /** A contact as `addContact` stores it: non-blank name and key, both already trimmed. */
  predicate WellFormed(c: Contact)
  {
    IsTrimmed(c.name) && IsTrimmed(c.key)
  }

  /** The guard of `addContact`: trimmed name and key are non-empty and no contact has the trimmed name. */
  predicate CanAdd(contacts: seq<Contact>, name: string, key: string)
  {
    |Trim(name)| > 0 && |Trim(key)| > 0 && FindByName(contacts, Trim(name)).None?
  }

  /** The contact `addContact` creates from the two text fields. */
  function NewContact(id: string, name: string, key: string): Contact
  {
    Contact(id, Trim(name), Trim(key))
  }

  /**
    Whenever the guard admits a contact, prepending it keeps the list free of
    duplicate names and of untrimmed or blank entries.
   */
  lemma AddKeepsInvariant(contacts: seq<Contact>, id: string, name: string, key: string)
    requires NamesDistinct(contacts)
    requires forall i :: 0 <= i < |contacts| ==> WellFormed(contacts[i])
    requires CanAdd(contacts, name, key)
    ensures NamesDistinct([NewContact(id, name, key)] + contacts)
    ensures forall i :: 0 <= i < |contacts| + 1 ==> WellFormed(([NewContact(id, name, key)] + contacts)[i])
  {
  }

  /** The state of the contacts screen: the list and the two input fields. */
  class ContactList {
    var contacts: seq<Contact>
    var newContactName: string
    var newContactKey: string

    ghost predicate Valid()
      reads this
    {
      NamesDistinct(contacts) && forall i :: 0 <= i < |contacts| ==> WellFormed(contacts[i])
    }

    constructor ()
      ensures Valid()
      ensures contacts == [] && newContactName == "" && newContactKey == ""
    {
      contacts := [];
      newContactName := "";
      newContactKey := "";
    }

    /** Typing into the name field. */
    method SetNewContactName(text: string)
      requires Valid()
      modifies this
      ensures Valid()
      ensures newContactName == text
      ensures contacts == old(contacts) && newContactKey == old(newContactKey)
    {
      newContactName := text;
    }

    /** Typing into the key field. */
    method SetNewContactKey(text: string)
      requires Valid()
      modifies this
      ensures Valid()
      ensures newContactKey == text
      ensures contacts == old(contacts) && newContactName == old(newContactName)
    {
      newContactKey := text;
    }

    /**
      `addContact`: when the guard admits the fields, the trimmed contact is
      put first, the earlier contacts follow unchanged and both fields are
      cleared; otherwise nothing changes. `id` stands for `Date.now()`.
     */
    method AddContact(id: string)
      requires Valid()
      modifies this
      ensures Valid()
      ensures CanAdd(old(contacts), old(newContactName), old(newContactKey)) ==>
        && contacts == [Contact(id, Trim(old(newContactName)), Trim(old(newContactKey)))] + old(contacts)
        && |contacts| == |old(contacts)| + 1
        && newContactName == "" && newContactKey == ""
      ensures !CanAdd(old(contacts), old(newContactName), old(newContactKey)) ==>
        && contacts == old(contacts)
        && newContactName == old(newContactName) && newContactKey == old(newContactKey)
      ensures CanAdd(old(contacts), old(newContactName), old(newContactKey)) <==>
        && Trim(old(newContactName)) != "" && Trim(old(newContactKey)) != ""
        && forall i :: 0 <= i < |old(contacts)| ==> old(contacts)[i].name != Trim(old(newContactName))
    {
      var name := Trim(newContactName);
      var key := Trim(newContactKey);
      if |name| > 0 && |key| > 0 && FindByName(contacts, name).None? {
        AddKeepsInvariant(contacts, id, newContactName, newContactKey);
        var newContact := Contact(id, name, key);
        contacts := [newContact] + contacts;
        newContactName := "";
        newContactKey := "";
      }
    }
  }
}
