/**
 * The timeline of the Experience section (src/components/sections/Experience.tsx):
 * education, experience and training records are tagged with their source and
 * concatenated, then sorted newest first by the year key of their date string with
 * a stable sort (`Array.prototype.sort` is stable since ECMAScript 2019); each item
 * is drawn on the left or the right and shows its fields with `||` fallbacks.
 */
module Timeline {
  import opened Options
  import opened YearKey

  /** The fields of a record that the timeline reads; an absent property is None. */
  datatype Item = Item(
    degree: Option<string>, role: Option<string>, title: Option<string>,
    institution: Option<string>, company: Option<string>,
    year: Option<string>, duration: Option<string>)

  datatype Source = Education | Experience | Training

  datatype Entry = Entry(item: Item, kind: Source)

  function Tag(items: seq<Item>, kind: Source): (r: seq<Entry>)
    ensures forall e :: e in r ==> e.kind == kind
  {
    seq(|items|, i requires 0 <= i < |items| => Entry(items[i], kind))
  }

  /** `[...education.map(tag), ...experience.map(tag), ...training.map(tag)]` */
  function Combine(education: seq<Item>, experience: seq<Item>, training: seq<Item>): (r: seq<Entry>)
    ensures |r| == |education| + |experience| + |training|
    ensures forall i :: 0 <= i < |education| ==> r[i] == Entry(education[i], Education)
    ensures forall i :: 0 <= i < |experience| ==> r[|education| + i] == Entry(experience[i], Experience)
    ensures forall i :: 0 <= i < |training| ==>
              r[|education| + |experience| + i] == Entry(training[i], Training)
  {
    Tag(education, Education) + Tag(experience, Experience) + Tag(training, Training)
  }

  /** The string the sort reads: `year` when that property exists, else `duration` when it
      exists, else the empty string. */
  function YearText(it: Item): string
  {
    if it.year.Some? then it.year.value
    else if it.duration.Some? then it.duration.value
    else ""
  }

  /** The year key of an entry, read by `getYear`. */
  function Key(e: Entry): (k: nat)
    ensures k <= 9999
  {
    GetYear(YearText(e.item))
  }

  /** Whether s is non-increasing by the key: newest first. */
  ghost predicate NewestFirst<T>(s: seq<T>, key: T -> nat)
  {
    forall i, j :: 0 <= i < j < |s| ==> key(s[i]) >= key(s[j])
  }

  /** The elements of s whose key is k, in their order in s. */
  function WithKey<T>(s: seq<T>, key: T -> nat, k: nat): (r: seq<T>)
    ensures |r| <= |s|
  {
    if s == [] then []
    else (if key(s[0]) == k then [s[0]] else []) + WithKey(s[1..], key, k)
  }

  /** Places x before the first element whose key is not greater than its own. */
  function Insert<T>(x: T, t: seq<T>, key: T -> nat): (r: seq<T>)
    ensures multiset(r) == multiset(t) + multiset{x}
  {
    if t == [] || key(t[0]) <= key(x) then [x] + t
    else
      assert t == [t[0]] + t[1..];
      [t[0]] + Insert(x, t[1..], key)
  }

  lemma {:induction false} InsertKeepsNewestFirst<T>(x: T, t: seq<T>, key: T -> nat)
    requires NewestFirst(t, key)
    ensures NewestFirst(Insert(x, t, key), key)
  {
    if t != [] && key(t[0]) > key(x) {
      var rest := Insert(x, t[1..], key);
      InsertKeepsNewestFirst(x, t[1..], key);
      var r := [t[0]] + rest;
      assert t == [t[0]] + t[1..];
      forall j | 0 < j < |r| ensures key(r[0]) >= key(r[j]) {
        assert r[j] in multiset(t[1..]) + multiset{x};
        if r[j] != x {
          var m :| 0 <= m < |t[1..]| && t[1..][m] == r[j];
          assert t[m + 1] == r[j];
        }
      }
    }
  }

  /** `sort((a, b) => key(b) - key(a))` with a stable sort. */
  function SortNewestFirst<T>(s: seq<T>, key: T -> nat): (r: seq<T>)
    ensures multiset(r) == multiset(s)
    ensures NewestFirst(r, key)
  {
    if s == [] then []
    else
      assert s == [s[0]] + s[1..];
      InsertKeepsNewestFirst(s[0], SortNewestFirst(s[1..], key), key);
      Insert(s[0], SortNewestFirst(s[1..], key), key)
  }

  /** The rendered timeline. */
  function TimelineOf(education: seq<Item>, experience: seq<Item>, training: seq<Item>): (r: seq<Entry>)
    ensures NewestFirst(r, Key)
  {
    SortNewestFirst(Combine(education, experience, training), Key)
  }

  lemma {:induction false} WithKeyAppend<T>(a: seq<T>, b: seq<T>, key: T -> nat, k: nat)
    ensures WithKey(a + b, key, k) == WithKey(a, key, k) + WithKey(b, key, k)
  {
    if a != [] {
      assert (a + b)[1..] == a[1..] + b;
      WithKeyAppend(a[1..], b, key, k);
    } else {
      assert a + b == b;
    }
  }

  lemma WithKeySingle<T>(x: T, key: T -> nat, k: nat)
    ensures WithKey([x], key, k) == if key(x) == k then [x] else []
  {
    assert [x][1..] == [];
  }

  lemma {:induction false} WithKeyIsSubsequence<T>(s: seq<T>, key: T -> nat, k: nat)
    ensures forall x :: x in WithKey(s, key, k) ==> x in s && key(x) == k
  {
    if s != [] {
      WithKeyIsSubsequence(s[1..], key, k);
    }
  }

  lemma {:induction false} InsertKeepsKeyOrder<T>(x: T, t: seq<T>, key: T -> nat, k: nat)
    ensures WithKey(Insert(x, t, key), key, k) == WithKey([x], key, k) + WithKey(t, key, k)
  {
    if t == [] || key(t[0]) <= key(x) {
      WithKeyAppend([x], t, key, k);
    } else {
      var rest := Insert(x, t[1..], key);
      assert Insert(x, t, key) == [t[0]] + rest;
      InsertKeepsKeyOrder(x, t[1..], key, k);
      WithKeyAppend([t[0]], rest, key, k);
      assert t == [t[0]] + t[1..];
      WithKeyAppend([t[0]], t[1..], key, k);
      WithKeySingle(x, key, k);
      WithKeySingle(t[0], key, k);
    }
  }

  /** Stability: among elements with the same key the sort keeps the input order. */
  lemma {:induction false} SortIsStable<T>(s: seq<T>, key: T -> nat, k: nat)
    ensures WithKey(SortNewestFirst(s, key), key, k) == WithKey(s, key, k)
  {
    if s != [] {
      SortIsStable(s[1..], key, k);
      InsertKeepsKeyOrder(s[0], SortNewestFirst(s[1..], key), key, k);
      assert s == [s[0]] + s[1..];
      WithKeyAppend([s[0]], s[1..], key, k);
    }
  }

  function Rank(kind: Source): nat
  {
    match kind
    case Education => 0
    case Experience => 1
    case Training => 2
  }

  /** The combined list sorted by any key: a permutation of the tagged records, newest
      first, and within one key its education entries come before its experience entries,
      which come before its training entries, each group in the order of its own list. */
  lemma SortedCombinationSpec(education: seq<Item>, experience: seq<Item>, training: seq<Item>,
                              key: Entry -> nat, k: nat)
    ensures var r := SortNewestFirst(Combine(education, experience, training), key);
            && multiset(r) == multiset(Tag(education, Education)) + multiset(Tag(experience, Experience)) +
                              multiset(Tag(training, Training))
            && NewestFirst(r, key)
            && WithKey(r, key, k) == WithKey(Tag(education, Education), key, k) +
                                     WithKey(Tag(experience, Experience), key, k) +
                                     WithKey(Tag(training, Training), key, k)
  {
    var ed, ex, tr := Tag(education, Education), Tag(experience, Experience), Tag(training, Training);
    SortIsStable(ed + ex + tr, key, k);
    WithKeyAppend(ed + ex, tr, key, k);
    WithKeyAppend(ed, ex, key, k);
  }

  lemma BlocksOrderedBySource(a: seq<Entry>, b: seq<Entry>, c: seq<Entry>)
    requires forall e :: e in a ==> e.kind == Education
    requires forall e :: e in b ==> e.kind == Experience
    requires forall e :: e in c ==> e.kind == Training
    ensures var g := a + b + c;
            forall i, j :: 0 <= i < j < |g| ==> Rank(g[i].kind) <= Rank(g[j].kind)
  {
    var g := a + b + c;
    forall i | 0 <= i < |g|
      ensures Rank(g[i].kind) == if i < |a| then 0 else if i < |a| + |b| then 1 else 2
    {
      if i < |a| {
        assert g[i] == a[i];
      } else if i < |a| + |b| {
        assert g[i] == b[i - |a|];
      } else {
        assert g[i] == c[i - |a| - |b|];
      }
    }
  }

  lemma SameKeyOrderedBySource(education: seq<Item>, experience: seq<Item>, training: seq<Item>,
                               key: Entry -> nat, k: nat)
    ensures var g := WithKey(SortNewestFirst(Combine(education, experience, training), key), key, k);
            forall i, j :: 0 <= i < j < |g| ==> Rank(g[i].kind) <= Rank(g[j].kind)
  {
    var ed, ex, tr := Tag(education, Education), Tag(experience, Experience), Tag(training, Training);
    SortedCombinationSpec(education, experience, training, key, k);
    WithKeyIsSubsequence(ed, key, k);
    WithKeyIsSubsequence(ex, key, k);
    WithKeyIsSubsequence(tr, key, k);
    BlocksOrderedBySource(WithKey(ed, key, k), WithKey(ex, key, k), WithKey(tr, key, k));
  }

  /** The rendered timeline is a permutation of the tagged records, newest first by year
      key, and entries with the same year key appear education first, then experience, then
      training, each group in the order of its own list. */
  lemma TimelineSpec(education: seq<Item>, experience: seq<Item>, training: seq<Item>, k: nat)
    ensures multiset(TimelineOf(education, experience, training)) ==
            multiset(Tag(education, Education)) + multiset(Tag(experience, Experience)) +
            multiset(Tag(training, Training))
    ensures NewestFirst(TimelineOf(education, experience, training), Key)
    ensures WithKey(TimelineOf(education, experience, training), Key, k) ==
            WithKey(Tag(education, Education), Key, k) + WithKey(Tag(experience, Experience), Key, k) +
            WithKey(Tag(training, Training), Key, k)
    ensures var g := WithKey(TimelineOf(education, experience, training), Key, k);
            forall i, j :: 0 <= i < j < |g| ==> Rank(g[i].kind) <= Rank(g[j].kind)
  {
    SortedCombinationSpec(education, experience, training, Key, k);
    SameKeyOrderedBySource(education, experience, training, Key, k);
  }

  datatype Side = Left | Right

  /** `isLeft = index % 2 === 0` */
  function SideOf(index: nat): Side
  {
    if index % 2 == 0 then Left else Right
  }

  /** The first item is on the left and consecutive items are on opposite sides. */
  lemma SidesAlternate(index: nat)
    ensures SideOf(0) == Left
    ensures SideOf(index) != SideOf(index + 1)
    ensures SideOf(index + 2) == SideOf(index)
  {
  }

  /** JavaScript truthiness of an optional string: present and non-empty. */
  predicate Truthy(a: Option<string>)
  {
    a.Some? && a.value != ""
  }

  /** `a || b` */
  function Or(a: Option<string>, b: Option<string>): Option<string>
  {
    if Truthy(a) then a else b
  }

  /** What React renders for an optional string: nothing for undefined. */
  function Shown(a: Option<string>): string
  {
    if a.Some? then a.value else ""
  }

  function DateText(it: Item): string
  {
    Shown(Or(it.year, it.duration))
  }

  function TitleText(it: Item): string
  {
    Shown(Or(Or(it.degree, it.role), it.title))
  }

  function OrganisationText(it: Item): string
  {
    Shown(Or(it.institution, it.company))
  }

  /** The first present, non-empty string of a list, or the empty string. */
  function FirstNonEmpty(xs: seq<Option<string>>): (r: string)
    ensures r == "" || exists i :: 0 <= i < |xs| && xs[i] == Some(r)
  {
    if xs == [] then ""
    else if Truthy(xs[0]) then xs[0].value
    else
      var r := FirstNonEmpty(xs[1..]);
      assert r != "" ==> exists i :: 1 <= i < |xs| && xs[i] == Some(r) by {
        if r != "" {
          var i :| 0 <= i < |xs[1..]| && xs[1..][i] == Some(r);
          assert xs[i + 1] == Some(r);
        }
      }
      r
  }

  /** Each displayed field shows the first of its candidate properties that is present and
      non-empty, in the order the fallbacks list them. */
  lemma DisplayFallbacks(it: Item)
    ensures DateText(it) == FirstNonEmpty([it.year, it.duration])
    ensures TitleText(it) == FirstNonEmpty([it.degree, it.role, it.title])
    ensures OrganisationText(it) == FirstNonEmpty([it.institution, it.company])
  {
    assert [it.year, it.duration][1..] == [it.duration];
    assert [it.degree, it.role, it.title][1..] == [it.role, it.title];
    assert [it.role, it.title][1..] == [it.title];
    assert [it.institution, it.company][1..] == [it.company];
    assert FirstNonEmpty([it.title]) == Shown(it.title) by {
      assert [it.title][1..] == [];
    }
    assert FirstNonEmpty([it.duration]) == Shown(it.duration) by {
      assert [it.duration][1..] == [];
    }
    assert FirstNonEmpty([it.company]) == Shown(it.company) by {
      assert [it.company][1..] == [];
    }
  }

  /** The date shown is the string the year key is read from, unless `year` is present
      but empty: the key tests for the property, the display for a non-empty value. */
  lemma DateShownIsKeyText(it: Item)
    ensures it.year != Some("") ==> DateText(it) == YearText(it)
    ensures it.year == Some("") ==> YearText(it) == "" && DateText(it) == Shown(it.duration)
  {
  }
}
