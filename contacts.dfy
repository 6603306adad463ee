/**
 * The contacts of `sort_contacts` (app.py) and their sort key
 * `(x.get("last_name", ""), x.get("first_name", ""))`.
 */
module Contacts {
  import opened Text
  import opened Sorting

  /** One object of the contacts file, its values taken to be strings. */
  type Contact = map<string, string>

  const LastName := "last_name"
  const FirstName := "first_name"

  /** `c.get(name, "")`. */
  function Field(c: Contact, name: string): string
  {
    if name in c then c[name] else ""
  }

  /** The sort key: the last name, then the first name. */
  function Key(c: Contact): SortKey
  {
    [Field(c, LastName), Field(c, FirstName)]
  }

  /** Contacts sort by last name, and by first name among equal last names. */
  lemma KeyOrder(c: Contact, d: Contact)
    ensures KeyLess(Key(c), Key(d)) <==>
      StrLess(Field(c, LastName), Field(d, LastName)) ||
      (Field(c, LastName) == Field(d, LastName) && StrLess(Field(c, FirstName), Field(d, FirstName)))
  {
    var kc, kd := Key(c), Key(d);
    assert kc[1..][1..] == [] && kd[1..][1..] == [];
    assert KeyLess(kc, kd) == if kc[0] != kd[0] then StrLess(kc[0], kd[0]) else KeyLess(kc[1..], kd[1..]);
    assert KeyLess(kc[1..], kd[1..]) == if kc[1] != kd[1] then StrLess(kc[1], kd[1]) else KeyLess([], []);
    StrLessIrreflexive(kc[0]);
    StrLessIrreflexive(kc[1]);
  }

  /** A contact with neither name never sorts after another, for no key is below the empty one. */
  lemma NamelessSortsFirst(c: Contact, d: Contact)
    requires LastName !in d && FirstName !in d
    ensures !KeyLess(Key(c), Key(d))
  {
    KeyOrder(c, d);
  }

  /** A missing last name sorts before any present, non-empty one. */
  lemma MissingLastNameFirst(c: Contact, d: Contact)
    requires LastName !in c && LastName in d && d[LastName] != ""
    ensures KeyLess(Key(c), Key(d))
  {
    KeyOrder(c, d);
  }

  /** `contacts.sort(key=lambda x: (x.get("last_name", ""), x.get("first_name", "")))`. */
  method SortContacts(a: array<Contact>)
    modifies a
    ensures a[..] == StableSort(old(a[..]), Key)
    ensures Sorted(a[..], Key) && multiset(a[..]) == multiset(old(a[..]))
    ensures SameKeyOrder(a[..], old(a[..]), Key)
  {
    SortInPlace(a, Key);
  }

  /** The keys of Bob Zed, Amy Adams and Cara Adams. */
  lemma ExampleKeys(bob: Contact, amy: Contact, cara: Contact)
    requires bob == map[FirstName := "Bob", LastName := "Zed"]
    requires amy == map[FirstName := "Amy", LastName := "Adams"]
    requires cara == map[FirstName := "Cara", LastName := "Adams"]
    ensures KeyLess(Key(amy), Key(bob)) && KeyLess(Key(cara), Key(bob)) && !KeyLess(Key(cara), Key(amy))
  {
    assert Field(bob, LastName) == "Zed" && Field(amy, LastName) == "Adams" && Field(cara, LastName) == "Adams";
    assert Field(amy, FirstName) == "Amy" && Field(cara, FirstName) == "Cara";
    assert StrLess("Adams", "Zed") && StrLess("Amy", "Cara");
    KeyOrder(amy, bob);
    KeyOrder(cara, bob);
    KeyOrder(cara, amy);
    StrLessAsymmetric("Amy", "Cara");
  }

  /** Bob Zed, Amy Adams and Cara Adams come out as Amy Adams, Cara Adams, Bob Zed. */
  lemma ExampleSort(bob: Contact, amy: Contact, cara: Contact)
    requires bob == map[FirstName := "Bob", LastName := "Zed"]
    requires amy == map[FirstName := "Amy", LastName := "Adams"]
    requires cara == map[FirstName := "Cara", LastName := "Adams"]
    ensures StableSort([bob, amy, cara], Key) == [amy, cara, bob]
  {
    ExampleKeys(bob, amy, cara);
    SortThree(bob, amy, cara, Key);
  }
}
