/** The address book of malloc_example.c: records as the bytes they occupy, and the
    comparison of records by their bytes. */
module AddressBookModel {
  import opened Buffers

  const NAME: nat := 32      // name, phone_number and mobile_number
  const ADDRESS: nat := 128

  /** struct information; each string field is the whole array of the structure. */
  datatype Record = Record(index: int, name: string, phone: string, mobile: string, address: string)

  /** What a user types for one person. */
  datatype Entry = Entry(name: string, phone: string, mobile: string, address: string)

  predicate Sized(r: Record) {
    && |r.name| == |r.phone| == |r.mobile| == NAME && |r.address| == ADDRESS
    && -0x8000_0000 <= r.index < 0x8000_0000
  }

  /** Strings that scanf's %s can store in their fields. */
  predicate Fits(e: Entry) {
    && '\0' !in e.name && '\0' !in e.phone && '\0' !in e.mobile && '\0' !in e.address
    && |e.name| < 32 && |e.phone| < 32 && |e.mobile| < 32 && |e.address| < 128
  }

  /** The bytes of an unsigned number of `n` bytes, least significant first. */
  function LittleEndian(u: nat, n: nat): (bytes: string)
    ensures |bytes| == n
  {
    if n == 0 then "" else [(u % 256) as char] + LittleEndian(u / 256, n - 1)
  }

  lemma {:induction false} LittleEndianInjective(u: nat, v: nat, n: nat, size: nat)
    requires size == Power256(n) && u < size && v < size
    requires LittleEndian(u, n) == LittleEndian(v, n)
    ensures u == v
  {
    if n > 0 {
      var a, b := LittleEndian(u, n), LittleEndian(v, n);
      assert a[0] as int == u % 256 && b[0] as int == v % 256;
      assert a[1..] == LittleEndian(u / 256, n - 1) && b[1..] == LittleEndian(v / 256, n - 1);
      LittleEndianInjective(u / 256, v / 256, n - 1, Power256(n - 1));
    }
  }

  function Power256(n: nat): nat {
    if n == 0 then 1 else 256 * Power256(n - 1)
  }

  /** The four bytes of an int in two's complement. */
  function IndexBytes(n: int): (bytes: string)
    requires -0x8000_0000 <= n < 0x8000_0000
    ensures |bytes| == 4
  {
    LittleEndian(if n < 0 then n + 0x1_0000_0000 else n, 4)
  }

  /** The structure has no padding: 4 + 32 + 32 + 32 + 128 bytes. */
  function Bytes(r: Record): (bytes: string)
    requires Sized(r)
    ensures |bytes| == 228
  {
    IndexBytes(r.index) + r.name + r.phone + r.mobile + r.address
  }

  lemma IndexBytesInjective(m: int, n: int)
    requires -0x8000_0000 <= m < 0x8000_0000 && -0x8000_0000 <= n < 0x8000_0000
    requires IndexBytes(m) == IndexBytes(n)
    ensures m == n
  {
    assert Power256(4) == 256 * Power256(3) == 256 * 256 * Power256(2) == 0x1_0000_0000;
    LittleEndianInjective(if m < 0 then m + 0x1_0000_0000 else m,
                          if n < 0 then n + 0x1_0000_0000 else n, 4, 0x1_0000_0000);
  }

  /** Equal bytes are equal records. */
  lemma BytesInjective(a: Record, b: Record)
    requires Sized(a) && Sized(b) && Bytes(a) == Bytes(b)
    ensures a == b
  {
    var x, y := Bytes(a), Bytes(b);
    assert IndexBytes(a.index) == x[..4] && IndexBytes(b.index) == y[..4];
    IndexBytesInjective(a.index, b.index);
    assert a.name == x[4..36] && b.name == y[4..36];
    assert a.phone == x[36..68] && b.phone == y[36..68];
    assert a.mobile == x[68..100] && b.mobile == y[68..100];
    assert a.address == x[100..] && b.address == y[100..];
  }

  const ZERO_RECORD: Record := Record(0, Zeros(NAME), Zeros(NAME), Zeros(NAME), Zeros(ADDRESS))

  /** One round of input_person_information: the index and four scanf calls, each of
      which leaves what lies behind its terminator as it was. */
  function Enter(r: Record, index: int, e: Entry): Record
    requires Sized(r) && Fits(e)
  {
    Record(index,
           Overlay(r.name, Terminated(e.name)),
           Overlay(r.phone, Terminated(e.phone)),
           Overlay(r.mobile, Terminated(e.mobile)),
           Overlay(r.address, Terminated(e.address)))
  }

  /** The strings a record shows when it is printed. */
  function Strings(r: Record): Entry {
    Entry(CString(r.name), CString(r.phone), CString(r.mobile), CString(r.address))
  }

  lemma EnteredStrings(r: Record, index: int, e: Entry)
    requires Sized(r) && Fits(e)
    ensures Strings(Enter(r, index, e)) == e
  {
    StoredString(r.name, e.name);
    StoredString(r.phone, e.phone);
    StoredString(r.mobile, e.mobile);
    StoredString(r.address, e.address);
  }

  // ---------- comparing by bytes ----------

  /** Behind the terminator of `text` the field holds only zeros. */
  predicate TailZero(field: string, text: string) {
    forall k :: |text| < k < |field| ==> field[k] == '\0'
  }

  /** Behind each string of `e` the memory of `r` held only zeros. */
  predicate TailsZero(r: Record, e: Entry) {
    && TailZero(r.name, e.name) && TailZero(r.phone, e.phone)
    && TailZero(r.mobile, e.mobile) && TailZero(r.address, e.address)
  }

  lemma SameFieldIff(field: string, text: string, text': string)
    requires '\0' !in text && '\0' !in text' && |text| < |field| && |text'| < |field|
    ensures Overlay(field, Terminated(text)) == Overlay(Zeros(|field|), Terminated(text')) <==>
            text == text' && TailZero(field, text)
  {
    var a, b := Overlay(field, Terminated(text)), Overlay(Zeros(|field|), Terminated(text'));
    StoredString(field, text);
    StoredString(Zeros(|field|), text');
    if text == text' {
      assert forall k :: 0 <= k < |field| ==> (a[k] == b[k] <==> k <= |text| || field[k] == '\0');
      if a == b {
        assert forall k :: |text| < k < |field| ==> a[k] == field[k];
      }
    }
  }

  /** When does memcmp find a record equal to one just entered into zeroed memory?  For
      any memory the record was entered into: exactly when all strings match and the
      memory behind them held only zeros. */
  lemma SameBytesIff(memory: Record, index: int, e: Entry, e': Entry)
    requires Sized(memory) && Fits(e) && Fits(e') && -0x8000_0000 <= index < 0x8000_0000
    ensures Bytes(Enter(memory, index, e)) == Bytes(Enter(ZERO_RECORD, index, e')) <==>
            e == e' && TailsZero(memory, e)
  {
    var a, b := Enter(memory, index, e), Enter(ZERO_RECORD, index, e');
    SameFieldIff(memory.name, e.name, e'.name);
    SameFieldIff(memory.phone, e.phone, e'.phone);
    SameFieldIff(memory.mobile, e.mobile, e'.mobile);
    SameFieldIff(memory.address, e.address, e'.address);
    if Bytes(a) == Bytes(b) {
      BytesInjective(a, b);
    }
  }

  /** Entries in the calloc block: bytes decide string equality. */
  lemma SameBytesIffSameStrings(index: int, e: Entry, e': Entry)
    requires Fits(e) && Fits(e') && -0x8000_0000 <= index < 0x8000_0000
    ensures Bytes(Enter(ZERO_RECORD, index, e)) == Bytes(Enter(ZERO_RECORD, index, e')) <==> e == e'
  {
    SameBytesIff(ZERO_RECORD, index, e, e');
  }

  /** Entries added by realloc: the same person entered again can be found different. */
  lemma SameStringsDifferentBytes(index: int) returns (memory: Record, e: Entry)
    requires -0x8000_0000 <= index < 0x8000_0000
    ensures Sized(memory) && Fits(e)
    ensures Strings(Enter(memory, index, e)) == Strings(Enter(ZERO_RECORD, index, e))
    ensures Bytes(Enter(memory, index, e)) != Bytes(Enter(ZERO_RECORD, index, e))
  {
    var junk := seq(NAME, _ => '?');
    memory := ZERO_RECORD.(name := junk);
    e := Entry("A", "1", "2", "B");
    EnteredStrings(memory, index, e);
    EnteredStrings(ZERO_RECORD, index, e);
    assert !TailZero(memory.name, e.name) by { assert memory.name[5] == '?'; }
    SameBytesIff(memory, index, e, e);
  }

  // ---------- the book ----------

  /** Entry i carries index i + 1. */
  predicate Numbered(book: seq<Record>) {
    forall i :: 0 <= i < |book| ==> Sized(book[i]) && book[i].index == i + 1
  }

  predicate AllFit(entries: seq<Entry>) {
    forall i :: 0 <= i < |entries| ==> Fits(entries[i])
  }

  /** The records of a book show these people, in order. */
  predicate Shows(book: seq<Record>, people: seq<Entry>) {
    && |book| == |people|
    && forall i :: 0 <= i < |book| ==> Strings(book[i]) == people[i]
  }

  predicate AllSized(records: seq<Record>) {
    forall i :: 0 <= i < |records| ==> Sized(records[i])
  }

  /** Memory after input_person_information has filled it. */
  function EnterAll(memory: seq<Record>, pidx: int, entries: seq<Entry>): (book: seq<Record>)
    requires |memory| == |entries| && AllSized(memory) && AllFit(entries)
    ensures |book| == |memory|
  {
    seq(|memory|, i requires 0 <= i < |memory| => Enter(memory[i], pidx + i, entries[i]))
  }

  lemma EnteredPeople(memory: seq<Record>, pidx: int, entries: seq<Entry>)
    requires |memory| == |entries| && AllSized(memory) && AllFit(entries)
    ensures Shows(EnterAll(memory, pidx, entries), entries)
  {
    forall i | 0 <= i < |memory| ensures Strings(EnterAll(memory, pidx, entries)[i]) == entries[i] {
      EnteredStrings(memory[i], pidx + i, entries[i]);
    }
  }
}

/** The program as it fills, grows and overwrites its array. */
module AddressBookProgram {
  import opened Buffers
  import opened AddressBookModel

  method InputPersonInformation(book: array<Record>, memidx: nat, pidx: int, entries: seq<Entry>)
    requires memidx + |entries| <= book.Length && AllSized(book[..]) && AllFit(entries)
    requires 0 <= pidx && pidx + |entries| <= 0x8000_0000
    modifies book
    ensures AllSized(book[..])
    ensures book[memidx..memidx + |entries|] == EnterAll(old(book[memidx..memidx + |entries|]), pidx, entries)
    ensures book[..memidx] == old(book[..memidx])
    ensures book[memidx + |entries|..] == old(book[memidx + |entries|..])
  {
    var i := 0;
    while i < |entries|
      invariant i <= |entries|
      invariant forall k :: 0 <= k < book.Length ==> Sized(old(book[k]))
      invariant forall k :: 0 <= k < book.Length ==>
                  book[k] == if memidx <= k < memidx + i
                             then Enter(old(book[k]), pidx + k - memidx, entries[k - memidx])
                             else old(book[k])
    {
      book[memidx + i] := Enter(book[memidx + i], pidx + i, entries[i]);
      i := i + 1;
    }
  }

  /** memcmp: only its being zero is used. */
  method MemCmp(a: string, b: string) returns (sign: int)
    requires |a| == |b|
    ensures sign == 0 <==> a == b
    ensures sign < 0 <==> exists i :: 0 <= i < |a| && a[..i] == b[..i] && a[i] < b[i]
  {
    var i := 0;
    while i < |a|
      invariant i <= |a| && a[..i] == b[..i]
    {
      if a[i] != b[i] {
        sign := a[i] as int - b[i] as int;
        assert forall j :: i < j < |a| ==> a[..j] != b[..j] by {
          assert forall j :: i < j < |a| ==> a[..j][i] == a[i] && b[..j][i] == b[i];
        }
        assert forall j :: 0 <= j < i ==> a[j] == a[..i][j] && b[j] == b[..i][j];
        return;
      }
      i := i + 1;
    }
    assert a == a[..i] && b == b[..i];
    return 0;
  }

  /** STEP 1. */
  method CreateBook(people: seq<Entry>) returns (addr: array<Record>)
    requires 0 < |people| < 0x8000_0000 && AllFit(people)
    ensures fresh(addr)
    ensures Numbered(addr[..]) && Shows(addr[..], people)
    ensures addr[..] == EnterAll(seq(|people|, _ => ZERO_RECORD), 1, people)
  {
    addr := new Record[|people|](_ => ZERO_RECORD);
    assert addr[..] == seq(|people|, _ => ZERO_RECORD);
    InputPersonInformation(addr, 0, 1, people);
    assert addr[..] == addr[0..|people|];
    EnteredPeople(seq(|people|, _ => ZERO_RECORD), 1, people);
  }

  /** yn after scanf has stored a one-character answer: the second character is the
      terminator. */
  function Answer(yn: char): (buf: string)
    ensures |buf| == 2 && buf[0] == yn && buf[1] == '\0'
  {
    Terminated([yn])
  }

  /** realloc: the old records and then whatever the new memory holds. */
  method Realloc(addr: array<Record>, memory: seq<Record>) returns (grown: array<Record>)
    ensures fresh(grown) && grown[..] == addr[..] + memory
  {
    grown := new Record[addr.Length + |memory|](_ => ZERO_RECORD);
    var i := 0;
    while i < addr.Length + |memory|
      invariant i <= addr.Length + |memory|
      invariant forall k :: 0 <= k < i ==> grown[k] == if k < addr.Length then addr[k] else memory[k - addr.Length]
    {
      grown[i] := if i < addr.Length then addr[i] else memory[i - addr.Length];
      i := i + 1;
    }
  }

  /** Grows the array and enters the added people behind the old records. */
  method AddPeople(addr: array<Record>, added: seq<Entry>, memory: seq<Record>) returns (grown: array<Record>)
    requires AllSized(addr[..]) && addr.Length + |added| < 0x8000_0000
    requires AllFit(added) && AllSized(memory) && |memory| == |added|
    ensures fresh(grown)
    ensures grown[..] == addr[..] + EnterAll(memory, addr.Length + 1, added)
  {
    var n := addr.Length;
    grown := Realloc(addr, memory);
    ghost var before := grown[..];
    assert before[..n] == addr[..] && before[n..n + |added|] == memory;
    InputPersonInformation(grown, n, n + 1, added);
    assert grown[..n] == addr[..];
    assert grown[n..n + |added|] == EnterAll(memory, n + 1, added);
    assert grown[..] == grown[..n] + grown[n..n + |added|];
  }

  /** STEP 2: realloc keeps the old records; the added ones are entered into whatever the
      new memory holds.  The second comparison looks at yn[1], so that a capital Y does
      not count as yes here. */
  method GrowBook(addr: array<Record>, yn: char, added: seq<Entry>, memory: seq<Record>) returns (grown: array<Record>)
    requires Numbered(addr[..]) && addr.Length + |added| < 0x8000_0000
    requires AllFit(added) && AllSized(memory) && |memory| == |added|
    ensures grown == addr || fresh(grown)
    ensures grown[..] == addr[..] + (if yn == 'y' then EnterAll(memory, addr.Length + 1, added) else [])
  {
    var buf := Answer(yn);
    if (buf[0] == 'y' || buf[1] == 'Y') && |added| > 0 {
      grown := AddPeople(addr, added, memory);
    } else {
      grown := addr;
      if yn == 'y' {
        assert EnterAll(memory, addr.Length + 1, added) == [];
      }
    }
  }

  /** Growth keeps every record, continues the numbering and shows the added people. */
  lemma GrownBook(book: seq<Record>, people: seq<Entry>, added: seq<Entry>, memory: seq<Record>)
    requires Numbered(book) && Shows(book, people) && |book| + |added| < 0x8000_0000
    requires AllFit(added) && AllSized(memory) && |memory| == |added|
    ensures var grown := book + EnterAll(memory, |book| + 1, added);
      Numbered(grown) && Shows(grown, people + added)
  {
    EnteredPeople(memory, |book| + 1, added);
  }

  /** STEP 3: the person's record after a change, and whether it was found different.
      Either way only that record can have changed, it keeps its number, and it shows
      what was typed. */
  method ChangeBook(addr: array<Record>, cidx: int, changed: Entry) returns (found: bool, different: bool)
    requires Numbered(addr[..]) && addr.Length < 0x8000_0000 && Fits(changed)
    modifies addr
    ensures found <==> 1 <= cidx <= addr.Length
    ensures !found ==> addr[..] == old(addr[..])
    ensures Numbered(addr[..])
    ensures found ==>
              && Strings(addr[cidx - 1]) == changed
              && addr[..] == old(addr[..])[cidx - 1 := addr[cidx - 1]]
              && (different <==> old(addr[cidx - 1]) != Enter(ZERO_RECORD, cidx, changed))
              && (Strings(old(addr[cidx - 1])) != changed ==> different)
  {
    if cidx <= 0 || cidx > addr.Length {
      return false, false;
    }
    found := true;
    var newaddr := new Record[1](_ => ZERO_RECORD);
    assert AllSized(newaddr[..]) && AllFit([changed]);
    InputPersonInformation(newaddr, 0, cidx, [changed]);
    assert newaddr[0] == newaddr[0..1][0] == Enter(ZERO_RECORD, cidx, changed);
    EnteredStrings(ZERO_RECORD, cidx, changed);
    assert Sized(addr[..][cidx - 1]);
    var sign := MemCmp(Bytes(addr[cidx - 1]), Bytes(newaddr[0]));
    different := sign != 0;
    if different {
      addr[cidx - 1] := newaddr[0];
    } else {
      BytesInjective(addr[cidx - 1], newaddr[0]);
    }
  }

  datatype Outcome = NobodyEntered | NoSuchPerson | Unchanged | SameInformation | NewBook

  /** The memory a record lies in before its person is entered: zeros from calloc, and for
      those added whatever realloc's memory holds. */
  function MemoryOf(people: seq<Entry>, memory: seq<Record>, i: nat): Record
    requires i < |people| + |memory|
  {
    if i < |people| then ZERO_RECORD else memory[i - |people|]
  }

  /** Each record is its person entered into the memory it lies in. */
  ghost predicate EnteredFrom(book: seq<Record>, people: seq<Entry>, added: seq<Entry>, memory: seq<Record>)
    requires AllFit(people) && AllFit(added) && AllSized(memory) && |memory| == |added|
    requires |book| <= |people| + |added|
  {
    forall i :: 0 <= i < |book| ==>
      && Sized(MemoryOf(people, memory, i)) && Fits((people + added)[i]) &&
      book[i] == Enter(MemoryOf(people, memory, i), i + 1, (people + added)[i])
  }

  /** The memory of every record fits it, and so does what is entered there. */
  lemma EntrySized(people: seq<Entry>, added: seq<Entry>, memory: seq<Record>, i: nat)
    requires AllFit(people) && AllFit(added) && AllSized(memory) && |memory| == |added|
    requires i < |people| + |added|
    ensures Sized(MemoryOf(people, memory, i)) && Fits((people + added)[i])
  {
  }

  lemma CollectedBook(people: seq<Entry>, added: seq<Entry>, memory: seq<Record>)
    requires AllFit(people) && AllFit(added) && AllSized(memory) && |memory| == |added|
    ensures var first := EnterAll(seq(|people|, _ => ZERO_RECORD), 1, people);
      && EnteredFrom(first, people, added, memory)
      && EnteredFrom(first + EnterAll(memory, |people| + 1, added), people, added, memory)
  {
  }

  lemma EnteredFromShows(book: seq<Record>, people: seq<Entry>, added: seq<Entry>, memory: seq<Record>)
    requires AllFit(people) && AllFit(added) && AllSized(memory) && |memory| == |added|
    requires |book| <= |people| + |added| < 0x8000_0000 && EnteredFrom(book, people, added, memory)
    ensures Numbered(book) && Shows(book, (people + added)[..|book|])
  {
    forall i | 0 <= i < |book|
      ensures Sized(book[i]) && book[i].index == i + 1 && Strings(book[i]) == (people + added)[i]
    {
      EntrySized(people, added, memory, i);
      EnteredStrings(MemoryOf(people, memory, i), i + 1, (people + added)[i]);
    }
  }

  /** STEP 1 and STEP 2. */
  method CollectBook(people: seq<Entry>, ynAdd: char, added: seq<Entry>, memory: seq<Record>)
    returns (addr: array<Record>)
    requires people != [] && AllFit(people) && AllFit(added)
    requires |people| + |added| < 0x8000_0000
    requires AllSized(memory) && |memory| == |added|
    ensures fresh(addr) && Numbered(addr[..])
    ensures addr.Length == |people| + (if ynAdd == 'y' then |added| else 0)
    ensures EnteredFrom(addr[..], people, added, memory)
    ensures Shows(addr[..], (people + added)[..addr.Length])
  {
    addr := CreateBook(people);
    CollectedBook(people, added, memory);
    addr := GrowBook(addr, ynAdd, added, memory);
    if ynAdd != 'y' {
      assert addr[..] == EnterAll(seq(|people|, _ => ZERO_RECORD), 1, people);
    }
    EnteredFromShows(addr[..], people, added, memory);
  }

  /** What STEP 3 says after a change: whether the record was found different is decided
      by the strings and by what its memory held behind them. */
  lemma DifferentIff(memory: Record, index: int, e: Entry, changed: Entry)
    requires Sized(memory) && Fits(e) && Fits(changed) && -0x8000_0000 <= index < 0x8000_0000
    ensures Enter(memory, index, e) != Enter(ZERO_RECORD, index, changed) <==>
            e != changed || !TailsZero(memory, e)
  {
    SameBytesIff(memory, index, e, changed);
    if Bytes(Enter(memory, index, e)) == Bytes(Enter(ZERO_RECORD, index, changed)) {
      BytesInjective(Enter(memory, index, e), Enter(ZERO_RECORD, index, changed));
    }
  }

  /** The person's strings are entered again, and the memory they lie in held only zeros
      behind them. */
  predicate Kept(people: seq<Entry>, added: seq<Entry>, memory: seq<Record>, i: nat, changed: Entry)
    requires |memory| == |added| && i < |people| + |added|
  {
    && (people + added)[i] == changed
    && (i < |people| || TailsZero(memory[i - |people|], changed))
  }

  lemma KeptIff(book: seq<Record>, people: seq<Entry>, added: seq<Entry>, memory: seq<Record>, i: nat, changed: Entry)
    requires AllFit(people) && AllFit(added) && Fits(changed) && AllSized(memory) && |memory| == |added|
    requires i < |book| <= |people| + |added| < 0x8000_0000 && EnteredFrom(book, people, added, memory)
    ensures book[i] == Enter(ZERO_RECORD, i + 1, changed) <==> Kept(people, added, memory, i, changed)
  {
    EntrySized(people, added, memory, i);
    DifferentIff(MemoryOf(people, memory, i), i + 1, (people + added)[i], changed);
    assert i < |people| ==> TailsZero(ZERO_RECORD, changed);
  }

  /** What STEP 3 leaves of a book and says about it. */
  ghost predicate Asked(before: seq<Record>, after: seq<Record>, ynChange: char, cidx: int, changed: Entry,
                        outcome: Outcome)
    requires Fits(changed)
  {
    && |after| == |before|
    && if ynChange != 'y' && ynChange != 'Y' then outcome == Unchanged && after == before
       else if cidx < 1 || |before| < cidx then outcome == NoSuchPerson && after == before
       else
         && outcome == (if before[cidx - 1] == Enter(ZERO_RECORD, cidx, changed) then SameInformation else NewBook)
         && Strings(after[cidx - 1]) == changed
         && forall i :: 0 <= i < |after| && i != cidx - 1 ==> after[i] == before[i]
  }

  /** STEP 3 with its questions. */
  method AskForChange(addr: array<Record>, ynChange: char, cidx: int, changed: Entry)
    returns (outcome: Outcome)
    requires Numbered(addr[..]) && addr.Length < 0x8000_0000 && Fits(changed)
    modifies addr
    ensures Numbered(addr[..])
    ensures Asked(old(addr[..]), addr[..], ynChange, cidx, changed, outcome)
  {
    outcome := Unchanged;
    if ynChange == 'y' || ynChange == 'Y' {
      var found, different := ChangeBook(addr, cidx, changed);
      if found {
        outcome := if different then NewBook else SameInformation;
      } else {
        outcome := NoSuchPerson;
      }
    }
  }

  lemma FinalBook(before: seq<Record>, after: seq<Record>, all: seq<Entry>, ynChange: char, cidx: int, changed: Entry,
                  outcome: Outcome)
    requires Fits(changed) && Asked(before, after, ynChange, cidx, changed, outcome)
    requires |before| <= |all| && Shows(before, all[..|before|])
    ensures forall i :: 0 <= i < |after| ==>
              Strings(after[i]) ==
                if (ynChange == 'y' || ynChange == 'Y') && i == cidx - 1 then changed else all[i]
  {
    forall i | 0 <= i < |after|
      ensures Strings(after[i]) ==
                if (ynChange == 'y' || ynChange == 'Y') && i == cidx - 1 then changed else all[i]
    {
      assert Strings(before[i]) == all[..|before|][i];
    }
  }

  lemma FinalOutcome(before: seq<Record>, after: seq<Record>, people: seq<Entry>, added: seq<Entry>,
                     memory: seq<Record>, ynChange: char, cidx: int, changed: Entry, outcome: Outcome)
    requires AllFit(people) && AllFit(added) && Fits(changed) && AllSized(memory) && |memory| == |added|
    requires |before| <= |people| + |added| < 0x8000_0000 && EnteredFrom(before, people, added, memory)
    requires Asked(before, after, ynChange, cidx, changed, outcome)
    ensures if ynChange != 'y' && ynChange != 'Y' then outcome == Unchanged
            else if cidx < 1 || |after| < cidx then outcome == NoSuchPerson
            else outcome == if Kept(people, added, memory, cidx - 1, changed) then SameInformation else NewBook
  {
    if 1 <= cidx <= |before| {
      KeptIff(before, people, added, memory, cidx - 1, changed);
    }
  }

  /** main.  However much junk realloc's memory held and whatever memcmp made of it, the
      book is numbered from 1 and shows everyone as last entered.  The new book is printed
      exactly when a string differs or the record's memory held something behind one. */
  method Program(people: seq<Entry>, ynAdd: char, added: seq<Entry>, memory: seq<Record>,
                 ynChange: char, cidx: int, changed: Entry)
    returns (outcome: Outcome, book: seq<Record>)
    requires AllFit(people) && AllFit(added) && Fits(changed)
    requires |people| + |added| < 0x8000_0000
    requires AllSized(memory) && |memory| == |added|
    ensures Numbered(book)
    ensures people == [] ==> outcome == NobodyEntered && book == []
    ensures people != [] ==> |book| == |people| + (if ynAdd == 'y' then |added| else 0)
    ensures people != [] ==> forall i :: 0 <= i < |book| ==>
              Strings(book[i]) == if (ynChange == 'y' || ynChange == 'Y') && i == cidx - 1 then changed
                                  else (people + added)[i]
    ensures people != [] ==>
              if ynChange != 'y' && ynChange != 'Y' then outcome == Unchanged
              else if cidx < 1 || |book| < cidx then outcome == NoSuchPerson
              else outcome == if Kept(people, added, memory, cidx - 1, changed) then SameInformation else NewBook
  {
    if |people| == 0 {
      return NobodyEntered, [];
    }
    var addr := CollectBook(people, ynAdd, added, memory);
    ghost var before := addr[..];
    outcome := AskForChange(addr, ynChange, cidx, changed);
    book := addr[..];
    FinalBook(before, book, people + added, ynChange, cidx, changed, outcome);
    FinalOutcome(before, book, people, added, memory, ynChange, cidx, changed, outcome);
  }
}
