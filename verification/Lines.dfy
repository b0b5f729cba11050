// The protocol's message lines: what is printed for each message and what is
// read from a line, well formed or not. A byte of text is a char.

module Lines {
  import opened Basics
  import opened Decimal
  import Paths

  // ----- Fields -----

  function IndexOf(s: string, c: char): (i: nat)
    ensures i <= |s|
    ensures i < |s| <==> c in s
    ensures i < |s| ==> s[i] == c
    ensures c !in s[..i]
  {
    if s == "" || s[0] == c then 0
    else
      var rest := IndexOf(s[1..], c);
      assert s[..1 + rest] == [s[0]] + s[1..][..rest];
      assert s == [s[0]] + s[1..];
      1 + rest
  }

  /** The fields between single spaces; there is always at least one. */
  function Split(s: string): (fields: seq<string>)
    ensures fields != []
    ensures forall i :: 0 <= i < |fields| ==> ' ' !in fields[i]
    decreases |s|
  {
    var i := IndexOf(s, ' ');
    if i == |s| then
      assert s[..i] == s;
      [s]
    else [s[..i]] + Split(s[i + 1..])
  }

  function Join(fields: seq<string>): string {
    if fields == [] then "" else if |fields| == 1 then fields[0] else fields[0] + " " + Join(fields[1..])
  }

  lemma JoinFirst(first: string, rest: seq<string>)
    requires rest != []
    ensures Join([first] + rest) == first + " " + Join(rest)
  {
    assert ([first] + rest)[1..] == rest;
  }

  lemma {:induction false} JoinSplit(s: string)
    ensures Join(Split(s)) == s
    decreases |s|
  {
    var i := IndexOf(s, ' ');
    if i < |s| {
      var first, rest := s[..i], Split(s[i + 1..]);
      JoinSplit(s[i + 1..]);
      JoinFirst(first, rest);
      assert s == first + " " + s[i + 1..];
    }
  }

  lemma {:induction false} IndexIs(s: string, c: char, i: nat)
    requires i < |s| && s[i] == c && c !in s[..i]
    ensures IndexOf(s, c) == i
    decreases i
  {
    if i > 0 {
      assert s[0] in s[..i];
      assert s[1..][..i - 1] == s[..i][1..];
      IndexIs(s[1..], c, i - 1);
    }
  }

  // A first field without a space splits off by itself.
  lemma SplitField(a: string, b: string)
    requires ' ' !in a
    ensures Split(a + " " + b) == [a] + Split(b)
  {
    var s := a + " " + b;
    assert s[..|a|] == a && s[|a| + 1..] == b;
    IndexIs(s, ' ', |a|);
  }

  predicate Spaceless(fields: seq<string>) {
    forall i :: 0 <= i < |fields| ==> ' ' !in fields[i]
  }

  lemma JoinMore(fields: seq<string>, last: string)
    requires fields != []
    ensures Join(fields + [last]) == fields[0] + " " + Join(fields[1..] + [last])
  {
    assert (fields + [last])[1..] == fields[1..] + [last];
  }

  lemma SplitMore(field: string, rest: string, fields: seq<string>, more: seq<string>)
    requires ' ' !in field && Split(rest) == fields + more
    ensures Split(field + " " + rest) == [field] + fields + more
  {
    SplitField(field, rest);
  }

  // Fields joined split back, whatever the last of them holds.
  lemma {:induction false} SplitJoin(fields: seq<string>, last: string)
    requires Spaceless(fields)
    ensures Split(Join(fields + [last])) == fields + Split(last)
    decreases |fields|
  {
    if fields == [] {
      assert fields + [last] == [last];
    } else {
      JoinMore(fields, last);
      SplitJoin(fields[1..], last);
      SplitMore(fields[0], Join(fields[1..] + [last]), fields[1..], Split(last));
      assert [fields[0]] + fields[1..] == fields;
    }
  }

  lemma IndexOfNone(s: string, c: char)
    requires c !in s
    ensures IndexOf(s, c) == |s|
  {
  }

  lemma SplitOne(s: string)
    requires ' ' !in s
    ensures Split(s) == [s]
  {
    IndexOfNone(s, ' ');
  }

  lemma {:induction false} JoinedSplits(fields: seq<string>)
    requires fields != [] && Spaceless(fields)
    ensures Split(Join(fields)) == fields
    decreases |fields|
  {
    if |fields| == 1 {
      SplitOne(fields[0]);
    } else {
      JoinedSplits(fields[1..]);
      SplitField(fields[0], Join(fields[1..]));
    }
  }

  // A line is the fields it splits into.
  lemma SplitIs(line: string, fields: seq<string>)
    requires fields != [] && Spaceless(fields)
    ensures Split(line) == fields <==> line == Join(fields)
  {
    JoinSplit(line);
    JoinedSplits(fields);
  }

  lemma JoinTwo(a: string, b: string)
    ensures Join([a, b]) == a + " " + b
  {
    JoinFirst(a, [b]);
    assert [a] + [b] == [a, b];
  }

  lemma JoinThree(a: string, b: string, c: string)
    ensures Join([a, b, c]) == a + " " + b + " " + c
  {
    JoinTwo(b, c);
    JoinFirst(a, [b, c]);
    assert [a] + [b, c] == [a, b, c];
    assert a + " " + (b + " " + c) == a + " " + b + " " + c;
  }

  lemma JoinFour(a: string, b: string, c: string, d: string)
    ensures Join([a, b, c, d]) == a + " " + b + " " + c + " " + d
  {
    JoinThree(b, c, d);
    JoinFirst(a, [b, c, d]);
    assert [a] + [b, c, d] == [a, b, c, d];
    assert a + " " + (b + " " + c + " " + d) == a + " " + b + " " + c + " " + d;
  }

  // Lines of two, three and four fields.
  lemma TwoFields(line: string, a: string, b: string)
    requires ' ' !in a && ' ' !in b
    ensures line == a + " " + b <==> Split(line) == [a, b]
  {
    SplitIs(line, [a, b]);
    JoinTwo(a, b);
  }

  lemma ThreeFields(line: string, a: string, b: string, c: string)
    requires ' ' !in a && ' ' !in b && ' ' !in c
    ensures line == a + " " + b + " " + c <==> Split(line) == [a, b, c]
  {
    SplitIs(line, [a, b, c]);
    JoinThree(a, b, c);
  }

  lemma FourFields(line: string, a: string, b: string, c: string, d: string)
    requires ' ' !in a && ' ' !in b && ' ' !in c && ' ' !in d
    ensures line == a + " " + b + " " + c + " " + d <==> Split(line) == [a, b, c, d]
  {
    SplitIs(line, [a, b, c, d]);
    JoinFour(a, b, c, d);
  }

  // ----- Hashes -----

  const HashSize := 20

  function Zeros(n: nat): (b: seq<byte>)
    ensures |b| == n && forall i :: 0 <= i < n ==> b[i] == 0
  {
    if n == 0 then [] else [0] + Zeros(n - 1)
  }

  /** A hash as its twenty bytes. */
  type Sum = b: seq<byte> | |b| == HashSize witness Zeros(HashSize)

  function HexDigit(n: nat): char
    requires n < 16
  {
    if n < 10 then ('0' as int + n) as char else ('a' as int + (n - 10)) as char
  }

  function HexValue(c: char): Option<nat> {
    if '0' <= c <= '9' then Some(c as nat - '0' as nat)
    else if 'a' <= c <= 'f' then Some(c as nat - 'a' as nat + 10)
    else if 'A' <= c <= 'F' then Some(c as nat - 'A' as nat + 10)
    else None
  }

  function Hex(b: seq<byte>): (s: string)
    ensures |s| == 2 * |b| && forall i :: 0 <= i < |s| ==> HexValue(s[i]).Some?
  {
    if b == [] then ""
    else [HexDigit(b[0] as nat / 16), HexDigit(b[0] as nat % 16)] + Hex(b[1..])
  }

  // The bytes before the first pair that is not two hex digits.
  function Unhex(s: string): (b: seq<byte>)
    ensures 2 * |b| <= |s|
  {
    if |s| < 2 then []
    else
      match (HexValue(s[0]), HexValue(s[1]))
      case (Some(hi), Some(lo)) =>
        assert hi < 16 && lo < 16;
        [(16 * hi + lo) as byte] + Unhex(s[2..])
      case _ => []
  }

  /** Reads a hash leniently: what decodes, and zeros for the rest. */
  function NewHash(s: string): Sum
    requires |s| == 2 * HashSize
  {
    var b := Unhex(s);
    b + Zeros(HashSize - |b|)
  }

  function ParseHash(s: string): Option<Sum> {
    if |s| != 2 * HashSize then None
    else
      var h := NewHash(s);
      if h == Zeros(HashSize) && s != Hex(Zeros(HashSize)) then None else Some(h)
  }

  lemma {:induction false} UnhexHex(b: seq<byte>)
    ensures Unhex(Hex(b)) == b
  {
    if b != [] {
      UnhexHex(b[1..]);
      assert Hex(b)[2..] == Hex(b[1..]);
      assert b == [b[0]] + b[1..];
    }
  }

  // Hashes are printed in small letters and read in either case.
  lemma HexLetters(n: nat)
    requires n < 16
    ensures HexDigit(n) == "0123456789abcdef"[n]
    ensures forall c :: HexValue(c) == Some(n) <==> c == "0123456789abcdef"[n] || c == "0123456789ABCDEF"[n]
  {
  }

  // What is printed reads back, the zero hash included.
  lemma HashReadsBack(h: Sum)
    ensures ParseHash(Hex(h)) == Some(h)
  {
    UnhexHex(h);
    assert h + [] == h;
  }

  // Some byte is not zero.
  ghost predicate SomeByte(b: seq<byte>) {
    exists i :: 0 <= i < |b| && b[i] != 0
  }

  // Exactly which forty characters are taken for a hash: the zero hash printed,
  // and whatever begins with hex digits that do not all stand for zeros.
  // Whatever follows the first that is no hex digit goes unread.
  lemma HashTaken(s: string)
    requires |s| == 2 * HashSize
    ensures ParseHash(s).Some? <==> s == Hex(Zeros(HashSize)) || SomeByte(Unhex(s))
    ensures ParseHash(s).Some? ==> Unhex(s) <= ParseHash(s).value
  {
    var b, h := Unhex(s), NewHash(s);
    if SomeByte(b) {
      var i :| 0 <= i < |b| && b[i] != 0;
      assert h[i] != 0 && Zeros(HashSize)[i] == 0;
    } else {
      assert forall i :: 0 <= i < HashSize ==> h[i] == Zeros(HashSize)[i];
      assert h == Zeros(HashSize);
    }
  }

  // So text that is no hash is taken for one.
  lemma LooseHash(s: string)
    requires |s| == 2 * HashSize && s[..2] == "12" && s[2] == 'z'
    ensures ParseHash(s).Some? && Hex(ParseHash(s).value) != s
  {
    assert Unhex(s)[0] == 0x12;
    HashTaken(s);
    assert HexValue(s[2]).None?;
  }

  // ----- Messages -----

  datatype ClientMessage = Register(ref: string, hash: Sum, id: string) | Ack(hash: Sum)

  datatype ServerMessage =
    | Announce(id: string)
    | Update(hash: Sum, objects: int, sequence: nat)
    | Refusal(code: string, message: string)

  function Print(m: ClientMessage): string {
    match m
    case Register(ref, hash, id) => Join(["register", ref, Hex(hash)] + if id != "" then [id] else [])
    case Ack(hash) => Join(["ack", Hex(hash)])
  }

  // A message out of protocol is an error.
  function ReadClient(line: string): Option<ClientMessage> {
    var fields := Split(line);
    if fields[0] == "register" then
      if |fields| != 3 && |fields| != 4 then None
      else
        match ParseHash(fields[2])
        case None => None
        case Some(hash) => Some(Register(fields[1], hash, if |fields| == 4 then fields[3] else ""))
    else if fields[0] == "ack" then
      if |fields| != 2 then None
      else
        match ParseHash(fields[1])
        case None => None
        case Some(hash) => Some(Ack(hash))
    else None
  }

  function Tell(m: ServerMessage): string
    requires m.Update? ==> m.objects >= 0
  {
    match m
    case Announce(id) => Join(["server", id])
    case Update(hash, objects, sequence) =>
      Join(["update", Hex(hash), Itoa(objects)] + if sequence != 0 then ["seq=" + Itoa(sequence)] else [])
    case Refusal(code, message) => Join(["error", code, message])
  }

  // The sequence a field names, if it is one at all; it is never zero.
  function TrailerOf(field: string): (r: Option<nat>)
    ensures r.Some? ==> r.value != 0
  {
    var i := IndexOf(field, '=');
    if i == |field| || field[i + 1..] == "" || field[..i] != "seq" then None
    else
      match ParseUint(field[i + 1..])
      case None => None
      case Some(n) => if n == 0 then None else Some(n)
  }

  /** The sequence an update's trailers give it, on top of the one it has. */
  function Trailers(fields: seq<string>, sequence: nat): Option<nat> {
    if fields == [] then Some(sequence)
    else
      match TrailerOf(fields[0])
      case None => None
      case Some(n) => if sequence != 0 then None else Trailers(fields[1..], n)
  }

  // The field says seq= and a number that reads as n.
  predicate Named(field: string, n: nat) {
    |field| > 4 && field[..4] == "seq=" && ParseUint(field[4..]) == Some(n)
  }

  lemma TrailerIs(field: string, n: nat)
    ensures TrailerOf(field) == Some(n) <==> n != 0 && Named(field, n)
  {
    var i := IndexOf(field, '=');
    if |field| > 4 && field[..4] == "seq=" {
      assert field[..3] == field[..4][..3];
      assert field[3] == field[..4][3];
      IndexIs(field, '=', 3);
    }
    if i < |field| && field[..i] == "seq" {
      assert field[..4] == field[..i] + [field[i]];
    }
  }

  // The trailers mean something exactly when there are none, or one, and it
  // names a sequence that is not zero.
  lemma TrailersMean(fields: seq<string>, n: nat)
    ensures Trailers(fields, 0) == Some(n) <==>
              (fields == [] && n == 0) || (|fields| == 1 && n != 0 && Named(fields[0], n))
  {
    if fields != [] {
      TrailerIs(fields[0], n);
      if |fields| == 1 {
        assert fields[1..] == [];
      } else if TrailerOf(fields[0]).Some? {
        assert Trailers(fields[1..], TrailerOf(fields[0]).value) == None;
      }
    }
  }

  method ParseTrailers(fields: seq<string>) returns (r: Option<nat>)
    ensures r == Trailers(fields, 0)
  {
    var sequence, i := 0, 0;
    while i < |fields|
      invariant 0 <= i <= |fields|
      invariant Trailers(fields, 0) == Trailers(fields[i..], sequence)
    {
      var at := IndexOf(fields[i], '=');
      if at == |fields[i]| || fields[i][at + 1..] == "" {
        return None;
      }
      var key, value := fields[i][..at], fields[i][at + 1..];
      if key != "seq" || sequence != 0 {
        return None;
      }
      var n := ParseUint(value);
      if n.None? || n.value == 0 {
        return None;
      }
      sequence := n.value;
      i := i + 1;
    }
    return Some(sequence);
  }

  function ReadServer(line: string): Option<ServerMessage> {
    var fields := Split(line);
    if fields[0] == "server" then
      if |fields| != 2 || fields[1] == "" then None else Some(Announce(fields[1]))
    else if fields[0] == "update" then
      if |fields| < 3 then None
      else
        match (ParseHash(fields[1]), Atoi(fields[2]), Trailers(fields[3..], 0))
        case (Some(hash), Some(objects), Some(sequence)) => Some(Update(hash, objects, sequence))
        case _ => None
    else if fields[0] == "error" then
      if |fields| < 2 then None else Some(Refusal(fields[1], Join(fields[2..])))
    else None
  }

  // ----- What may be sent -----

  const MaxIdLength := 128
  const MaxRefLength := 512

  predicate ValidId(id: string) {
    |id| <= MaxIdLength && forall i :: 0 <= i < |id| ==> id[i] > ' ' && id[i] as int != 0x7f
  }

  // Which names a server or a client may go by: short, and without a space or
  // anything that does not print.
  lemma IdTaken(id: string)
    ensures ValidId(id) <==> |id| <= 128 && forall c :: c in id ==> c as int > 32 && c as int != 127
  {
    forall i | 0 <= i < |id| ensures id[i] in id {}
  }

  predicate Contains(s: string, part: string) {
    exists i :: 0 <= i <= |s| && part <= s[i..]
  }

  // The parts between slashes.
  function Components(s: string): (cs: seq<string>)
    ensures cs != []
    ensures forall i :: 0 <= i < |cs| ==> '/' !in cs[i]
    decreases |s|
  {
    var i := IndexOf(s, '/');
    if i == |s| then
      assert s[..i] == s;
      [s]
    else [s[..i]] + Components(s[i + 1..])
  }

  predicate EndsWith(s: string, end: string) {
    |s| >= |end| && s[|s| - |end|..] == end
  }

  predicate ValidComponent(c: string) {
    c != "" && c[0] != '.' && !EndsWith(c, ".lock")
  }

  predicate ValidRef(ref: string) {
    && ref != "" && |ref| <= MaxRefLength && "refs/" <= ref
    && !Contains(ref, "..") && !Contains(ref, "@{")
    && (forall i :: 0 <= i < |ref| ==> ref[i] as int >= 0x20 && ref[i] as int != 0x7f && ref[i] !in " ~^:?*[\\")
    && |Components(ref)| >= 3
    && forall i :: 0 <= i < |Components(ref)| ==> ValidComponent(Components(ref)[i])
  }

  // No component has a slash in it.
  ghost predicate Slashless(cs: seq<string>) {
    forall i :: 0 <= i < |cs| ==> '/' !in cs[i]
  }

  lemma SlashJoinFirst(first: string, rest: seq<string>)
    requires rest != []
    ensures Paths.Join([first] + rest) == first + "/" + Paths.Join(rest)
  {
    assert ([first] + rest)[1..] == rest;
  }

  lemma {:induction false} ComponentsJoin(s: string)
    ensures Paths.Join(Components(s)) == s
    decreases |s|
  {
    var i := IndexOf(s, '/');
    if i < |s| {
      ComponentsJoin(s[i + 1..]);
      SlashJoinFirst(s[..i], Components(s[i + 1..]));
      assert s == s[..i] + "/" + s[i + 1..];
    }
  }

  lemma {:induction false} JoinedComponents(cs: seq<string>)
    requires cs != [] && Slashless(cs)
    ensures Components(Paths.Join(cs)) == cs
    decreases |cs|
  {
    if |cs| == 1 {
      IndexOfNone(cs[0], '/');
    } else {
      var rest := Paths.Join(cs[1..]);
      var s := cs[0] + "/" + rest;
      JoinedComponents(cs[1..]);
      assert s[..|cs[0]|] == cs[0] && s[|cs[0]| + 1..] == rest;
      IndexIs(s, '/', |cs[0]|);
    }
  }

  // One stands right before the other somewhere.
  ghost predicate Adjoin(s: string, a: char, b: char) {
    exists i :: 0 <= i < |s| - 1 && s[i] == a && s[i + 1] == b
  }

  lemma ContainsTwo(s: string, a: char, b: char)
    ensures Contains(s, [a, b]) <==> Adjoin(s, a, b)
  {
    if Contains(s, [a, b]) {
      var i :| 0 <= i <= |s| && [a, b] <= s[i..];
      assert s[i] == [a, b][0] && s[i + 1] == [a, b][1];
    }
    if Adjoin(s, a, b) {
      var i :| 0 <= i < |s| - 1 && s[i] == a && s[i + 1] == b;
      assert s[i..][..2] == [a, b];
    }
  }

  lemma LockEnds(c: string)
    ensures EndsWith(c, ".lock") <==> exists stem :: c == stem + ".lock"
  {
    if EndsWith(c, ".lock") { assert c == c[..|c| - 5] + ".lock"; }
    if stem :| c == stem + ".lock" { assert c[|c| - 5..] == ".lock"; }
  }

  ghost predicate Plain(c: string) {
    c != "" && c[0] != '.' && !exists stem :: c == stem + ".lock"
  }

  /** At least three components, the first of them refs, none of them empty, hidden
      or reserved. */
  ghost predicate UnderRefs(ref: string, cs: seq<string>) {
    && |cs| >= 3 && cs[0] == "refs" && Slashless(cs) && ref == Paths.Join(cs)
    && forall i :: 0 <= i < |cs| ==> Plain(cs[i])
  }

  // Of printable characters, but those that git's own syntax uses.
  ghost predicate Printable(ref: string) {
    forall c :: c in ref ==> c as int > 32 && c as int != 127 && c !in {'~', '^', ':', '?', '*', '[', '\\'}
  }

  // Exactly which names a ref may have.
  lemma RefTaken(ref: string)
    ensures ValidRef(ref) <==>
              && |ref| <= 512 && Printable(ref) && !Adjoin(ref, '.', '.') && !Adjoin(ref, '@', '{')
              && exists cs :: UnderRefs(ref, cs)
  {
    ContainsTwo(ref, '.', '.');
    ContainsTwo(ref, '@', '{');
    RefCharacters(ref);
    ComponentsPlain(ref);
    RefsFirst(ref);
    if cs :| UnderRefs(ref, cs) { RefUnder(ref, cs); }
  }

  lemma RefUnder(ref: string, cs: seq<string>)
    requires UnderRefs(ref, cs)
    ensures Components(ref) == cs && "refs/" <= ref && ref != ""
  {
    JoinedComponents(cs);
    SlashJoinFirst("refs", cs[1..]);
    assert ["refs"] + cs[1..] == cs;
    assert ref[..5] == "refs" + "/" == "refs/";
  }

  lemma RefsFirst(ref: string)
    ensures "refs/" <= ref ==> Components(ref)[0] == "refs"
  {
    if "refs/" <= ref {
      var rest := ref[5..];
      assert ref == "refs" + "/" + rest by { assert ref == "refs/" + rest; assert "refs" + "/" == "refs/"; }
      assert ref[..4] == "refs" && ref[4] == '/';
      IndexIs(ref, '/', 4);
    }
  }

  lemma RefCharacters(ref: string)
    ensures Printable(ref) <==>
              forall i :: 0 <= i < |ref| ==> ref[i] as int >= 0x20 && ref[i] as int != 0x7f && ref[i] !in " ~^:?*[\\"
  {
    assert forall c: char :: c in " ~^:?*[\\" <==> c in {' ', '~', '^', ':', '?', '*', '[', '\\'};
    forall i | 0 <= i < |ref| ensures ref[i] in ref {}
  }

  lemma ComponentsPlain(ref: string)
    ensures UnderRefs(ref, Components(ref)) <==>
              |Components(ref)| >= 3 && Components(ref)[0] == "refs" &&
              forall i :: 0 <= i < |Components(ref)| ==> ValidComponent(Components(ref)[i])
  {
    var cs := Components(ref);
    ComponentsJoin(ref);
    forall i | 0 <= i < |cs| ensures ValidComponent(cs[i]) <==> Plain(cs[i]) { LockEnds(cs[i]); }
  }

  // ----- Round trips -----

  lemma HexSpaceless(b: seq<byte>)
    ensures ' ' !in Hex(b)
  {
    var s := Hex(b);
    assert forall i :: 0 <= i < |s| ==> HexValue(s[i]).Some?;
  }

  lemma ItoaSpaceless(n: nat)
    ensures ' ' !in Itoa(n)
  {
    var s := Itoa(n);
    assert forall i :: 0 <= i < |s| ==> IsDigit(s[i]);
  }

  // A name that is read is one field.
  lemma ReadFields(line: string)
    ensures ReadServer(line).Some? && ReadServer(line).value.Refusal? ==> ' ' !in ReadServer(line).value.code
    ensures ReadServer(line).Some? && ReadServer(line).value.Announce? ==> ' ' !in ReadServer(line).value.id
    ensures ReadClient(line).Some? && ReadClient(line).value.Register? ==>
              ' ' !in ReadClient(line).value.ref && ' ' !in ReadClient(line).value.id
  {
  }

  // ----- Exactly which lines are read -----

  // The line registers these, with the hash as this text: an empty name and none
  // at all are the same.
  predicate Registers(line: string, ref: string, text: string, id: string) {
    line == "register " + ref + " " + text + " " + id || (id == "" && line == "register " + ref + " " + text)
  }

  lemma RegistersFields(line: string, ref: string, text: string, id: string)
    requires ' ' !in ref && ' ' !in id && ' ' !in text
    ensures Registers(line, ref, text, id) <==>
              Split(line) == ["register", ref, text, id] || (id == "" && Split(line) == ["register", ref, text])
  {
    ThreeFields(line, "register", ref, text);
    FourFields(line, "register", ref, text, id);
    assert "register" + " " == "register ";
  }

  lemma RegisterTaken(line: string, ref: string, hash: Sum, id: string)
    ensures ReadClient(line) == Some(Register(ref, hash, id)) <==>
              ' ' !in ref && ' ' !in id &&
              exists text :: ' ' !in text && ParseHash(text) == Some(hash) && Registers(line, ref, text, id)
  {
    if ReadClient(line) == Some(Register(ref, hash, id)) {
      RegisterSplit(line, ref, hash, id);
      RegistersFields(line, ref, Split(line)[2], id);
    }
    if text :| ' ' !in ref && ' ' !in id && ' ' !in text && ParseHash(text) == Some(hash) && Registers(line, ref, text, id) {
      RegistersFields(line, ref, text, id);
    }
  }

  lemma RegisterSplit(line: string, ref: string, hash: Sum, id: string)
    requires ReadClient(line) == Some(Register(ref, hash, id))
    ensures ' ' !in ref && ' ' !in id && |Split(line)| > 2 && ' ' !in Split(line)[2] && ParseHash(Split(line)[2]) == Some(hash)
    ensures var fields := Split(line);
            fields == ["register", ref, fields[2], id] || (id == "" && fields == ["register", ref, fields[2]])
  {
    var fields := Split(line);
    if |fields| == 4 {
      assert fields == ["register", ref, fields[2], id];
    } else {
      assert id == "" && fields == ["register", ref, fields[2]];
    }
  }

  lemma AckTaken(line: string, hash: Sum)
    ensures ReadClient(line) == Some(Ack(hash)) <==>
              exists text :: ' ' !in text && ParseHash(text) == Some(hash) && line == "ack " + text
  {
    var fields := Split(line);
    assert "ack" + " " == "ack ";
    if ReadClient(line) == Some(Ack(hash)) {
      assert fields == ["ack", fields[1]];
      TwoFields(line, "ack", fields[1]);
    }
    if text :| ' ' !in text && ParseHash(text) == Some(hash) && line == "ack " + text { TwoFields(line, "ack", text); }
  }

  lemma AnnounceTaken(line: string, id: string)
    ensures ReadServer(line) == Some(Announce(id)) <==> id != "" && ' ' !in id && line == "server " + id
  {
    assert "server" + " " == "server ";
    if ' ' !in id { TwoFields(line, "server", id); }
    if ReadServer(line) == Some(Announce(id)) { assert Split(line) == ["server", id]; }
  }

  lemma JoinTwoAnd(a: string, b: string, rest: seq<string>)
    requires rest != []
    ensures Join([a, b] + rest) == a + " " + b + " " + Join(rest)
  {
    JoinFirst(b, rest);
    JoinFirst(a, [b] + rest);
    assert [a, b] + rest == [a] + ([b] + rest);
    assert a + " " + (b + " " + Join(rest)) == a + " " + b + " " + Join(rest);
  }

  lemma RefusalSplit(line: string, code: string, message: string)
    requires ReadServer(line) == Some(Refusal(code, message))
    ensures var fields := Split(line);
            |fields| >= 2 && fields == ["error", code] + fields[2..] && ' ' !in code && message == Join(fields[2..])
    ensures |Split(line)| == 2 ==> Split(line) == ["error", code]
  {
  }

  // The line of a refusal, or of one whose message was left out.
  predicate Refuses(line: string, code: string, message: string) {
    line == Join(["error", code, message]) || (message == "" && line == Join(["error", code]))
  }

  lemma RefusalSaid(line: string, code: string, message: string)
    requires ' ' !in code && Refuses(line, code, message)
    ensures ReadServer(line) == Some(Refusal(code, message))
  {
    if line == Tell(Refusal(code, message)) {
      RefusalReadsBack(code, message);
    } else {
      SplitIs(line, ["error", code]);
    }
  }

  lemma RefusalRead(line: string, code: string, message: string)
    requires ReadServer(line) == Some(Refusal(code, message))
    ensures ' ' !in code && Refuses(line, code, message)
  {
    var fields := Split(line);
    RefusalSplit(line, code, message);
    JoinSplit(line);
    if |fields| > 2 {
      JoinTwoAnd("error", code, fields[2..]);
      JoinThree("error", code, message);
    }
  }

  lemma RefusesLine(line: string, code: string, message: string)
    ensures Refuses(line, code, message) <==>
              line == "error " + code + " " + message || (message == "" && line == "error " + code)
  {
    JoinThree("error", code, message);
    JoinTwo("error", code);
    assert "error" + " " == "error ";
  }

  // A message may be left out, and then it is empty.
  lemma RefusalTaken(line: string, code: string, message: string)
    ensures ReadServer(line) == Some(Refusal(code, message)) <==>
              ' ' !in code && (line == "error " + code + " " + message || (message == "" && line == "error " + code))
  {
    RefusesLine(line, code, message);
    if ReadServer(line) == Some(Refusal(code, message)) { RefusalRead(line, code, message); }
    if ' ' !in code && Refuses(line, code, message) { RefusalSaid(line, code, message); }
  }

  // The line announces an update with its hash and count as these texts, and its
  // sequence, if it has one, as this.
  predicate Announces(line: string, text: string, count: string, number: Option<string>) {
    line == "update " + text + " " + count + if number.Some? then " seq=" + number.value else ""
  }

  lemma AnnouncesFields(line: string, text: string, count: string, number: Option<string>)
    requires ' ' !in text && ' ' !in count && (number.Some? ==> ' ' !in number.value)
    ensures Announces(line, text, count, number) <==>
              Split(line) == ["update", text, count] + if number.Some? then ["seq=" + number.value] else []
  {
    if number.None? { AnnouncesThree(line, text, count); } else { AnnouncesFour(line, text, count, number.value); }
  }

  lemma AnnouncesThree(line: string, text: string, count: string)
    requires ' ' !in text && ' ' !in count
    ensures Announces(line, text, count, None) <==> Split(line) == ["update", text, count] + []
  {
    assert "update" + " " == "update ";
    ThreeFields(line, "update", text, count);
    assert ["update", text, count] + [] == ["update", text, count];
  }

  lemma AnnouncesFour(line: string, text: string, count: string, number: string)
    requires ' ' !in text && ' ' !in count && ' ' !in number
    ensures Announces(line, text, count, Some(number)) <==> Split(line) == ["update", text, count] + ["seq=" + number]
  {
    var field, front := "seq=" + number, "update " + text + " " + count;
    FourFields(line, "update", text, count, field);
    assert ["update", text, count] + [field] == ["update", text, count, field];
    assert "update" + " " + text + " " + count == front by { assert "update" + " " == "update "; }
    Spaced(front, number);
  }

  lemma Spaced(front: string, number: string)
    ensures front + " " + ("seq=" + number) == front + (" seq=" + number)
  {
    assert " " + ("seq=" + number) == " seq=" + number;
  }

  // What stands after seq= is a number, so a field.
  lemma NumberSpaceless(s: string)
    requires ParseUint(s).Some?
    ensures ' ' !in s
  {
  }

  /** A number that says this sequence: none says zero. */
  predicate Says(number: Option<string>, sequence: nat) {
    if number.None? then sequence == 0 else sequence != 0 && ParseUint(number.value) == Some(sequence)
  }

  // The count may be signed or padded; a sequence is given only if it is not
  // zero.
  lemma UpdateTaken(line: string, hash: Sum, objects: int, sequence: nat)
    ensures ReadServer(line) == Some(Update(hash, objects, sequence)) <==>
              exists text, count, number ::
                && ' ' !in text && ' ' !in count && ParseHash(text) == Some(hash) && Atoi(count) == Some(objects)
                && Says(number, sequence) && Announces(line, text, count, number)
  {
    if ReadServer(line) == Some(Update(hash, objects, sequence)) { UpdateRead(line, hash, objects, sequence); }
    if text, count, number :| ' ' !in text && ' ' !in count && ParseHash(text) == Some(hash) && Atoi(count) == Some(objects)
                              && Says(number, sequence) && Announces(line, text, count, number) {
      UpdateSaid(line, hash, objects, sequence, text, count, number);
    }
  }

  lemma UpdateRead(line: string, hash: Sum, objects: int, sequence: nat)
    requires ReadServer(line) == Some(Update(hash, objects, sequence))
    ensures exists text, count, number ::
              && ' ' !in text && ' ' !in count && ParseHash(text) == Some(hash) && Atoi(count) == Some(objects)
              && Says(number, sequence) && Announces(line, text, count, number)
  {
    UpdateSplit(line, hash, objects, sequence);
    var fields := Split(line);
    var number := UpdateNumber(line, fields, sequence);
    assert Says(number, sequence) && Announces(line, fields[1], fields[2], number);
  }

  lemma UpdateNumber(line: string, fields: seq<string>, sequence: nat) returns (number: Option<string>)
    requires fields == Split(line) && |fields| >= 3 && fields == ["update", fields[1], fields[2]] + fields[3..]
    requires Trailers(fields[3..], 0) == Some(sequence)
    ensures Says(number, sequence) && Announces(line, fields[1], fields[2], number)
  {
    TrailersMean(fields[3..], sequence);
    if sequence == 0 {
      number := None;
    } else {
      number := Some(fields[3][4..]);
      NumberSpaceless(number.value);
      assert fields[3] == "seq=" + number.value && fields[3..] == [fields[3]];
    }
    AnnouncesFields(line, fields[1], fields[2], number);
  }

  lemma UpdateSplit(line: string, hash: Sum, objects: int, sequence: nat)
    requires ReadServer(line) == Some(Update(hash, objects, sequence))
    ensures var fields := Split(line);
            && |fields| >= 3 && fields == ["update", fields[1], fields[2]] + fields[3..]
            && ' ' !in fields[1] && ' ' !in fields[2]
            && ParseHash(fields[1]) == Some(hash) && Atoi(fields[2]) == Some(objects)
            && Trailers(fields[3..], 0) == Some(sequence)
  {
    var fields := Split(line);
    assert fields == [fields[0], fields[1], fields[2]] + fields[3..];
  }

  lemma UpdateSaid(line: string, hash: Sum, objects: int, sequence: nat, text: string, count: string,
        number: Option<string>)
    requires ' ' !in text && ' ' !in count && ParseHash(text) == Some(hash) && Atoi(count) == Some(objects)
    requires Says(number, sequence) && Announces(line, text, count, number)
    ensures ReadServer(line) == Some(Update(hash, objects, sequence))
  {
    if number.Some? { NumberSpaceless(number.value); }
    AnnouncesFields(line, text, count, number);
    var fields := Split(line);
    TrailersMean(fields[3..], sequence);
    if number.Some? {
      var field := "seq=" + number.value;
      assert fields[3..] == [field] && field[..4] == "seq=" && field[4..] == number.value;
      assert Named(field, sequence);
    } else {
      assert fields[3..] == [];
    }
  }

  // The fields of a registration, if its names are fields.
  lemma RegisterFields(ref: string, hash: Sum, id: string)
    requires ' ' !in ref && ' ' !in id
    ensures Split(Print(Register(ref, hash, id))) == ["register", ref, Hex(hash)] + if id != "" then [id] else []
  {
    HexSpaceless(hash);
    if id != "" {
      SplitJoin(["register", ref, Hex(hash)], id);
    } else {
      SplitJoin(["register", ref], Hex(hash));
      assert ["register", ref] + [Hex(hash)] == ["register", ref, Hex(hash)] + [];
    }
  }

  // A registration is read back as it was sent exactly when neither name has a
  // space in it.
  lemma RegisterReadsBack(ref: string, hash: Sum, id: string)
    ensures ReadClient(Print(Register(ref, hash, id))) == Some(Register(ref, hash, id)) <==> ' ' !in ref && ' ' !in id
  {
    ReadFields(Print(Register(ref, hash, id)));
    if ' ' !in ref && ' ' !in id {
      RegisterFields(ref, hash, id);
      HashReadsBack(hash);
    }
  }

  // Names that pass validation therefore survive the wire.
  lemma ValidNamesSurvive(ref: string, hash: Sum, id: string)
    requires ValidRef(ref) && ValidId(id)
    ensures ReadClient(Print(Register(ref, hash, id))) == Some(Register(ref, hash, id))
  {
    RegisterReadsBack(ref, hash, id);
  }

  lemma AckReadsBack(hash: Sum)
    ensures ReadClient(Print(Ack(hash))) == Some(Ack(hash))
  {
    HexSpaceless(hash);
    SplitJoin(["ack"], Hex(hash));
    assert ["ack"] + [Hex(hash)] == ["ack", Hex(hash)];
    HashReadsBack(hash);
  }

  // A name is read back exactly when it is one field, which a usable one is.
  lemma AnnounceReadsBack(id: string)
    ensures ReadServer(Tell(Announce(id))) == Some(Announce(id)) <==> id != "" && ' ' !in id
    ensures ValidId(id) ==> ' ' !in id
  {
    ReadFields(Tell(Announce(id)));
    SplitJoin(["server"], id);
    assert ["server"] + [id] == ["server", id];
  }

  lemma TrailerReadsBack(n: nat)
    requires 0 < n <= MaxUint64
    ensures Trailers(["seq=" + Itoa(n)], 0) == Some(n) && ' ' !in "seq=" + Itoa(n)
  {
    var field := "seq=" + Itoa(n);
    ItoaSpaceless(n);
    ItoaReadsBack(n);
    assert field[..4] == "seq=" && field[4..] == Itoa(n);
    assert Named(field, n);
    TrailersMean([field], n);
  }

  lemma UpdateFields(hash: Sum, objects: nat, sequence: nat)
    ensures Split(Tell(Update(hash, objects, sequence))) ==
            ["update", Hex(hash), Itoa(objects)] + if sequence != 0 then ["seq=" + Itoa(sequence)] else []
  {
    HexSpaceless(hash);
    ItoaSpaceless(objects);
    ItoaSpaceless(sequence);
    if sequence != 0 {
      var field := "seq=" + Itoa(sequence);
      SplitJoin(["update", Hex(hash), Itoa(objects)], field);
    } else {
      SplitJoin(["update", Hex(hash)], Itoa(objects));
      assert ["update", Hex(hash)] + [Itoa(objects)] == ["update", Hex(hash), Itoa(objects)] + [];
    }
  }

  // Whatever the hash, count and ordinal, an update is read back as sent.
  lemma UpdateReadsBack(hash: Sum, objects: nat, sequence: nat)
    requires objects <= MaxInt64 && sequence <= MaxUint64
    ensures ReadServer(Tell(Update(hash, objects, sequence))) == Some(Update(hash, objects, sequence))
  {
    UpdateFields(hash, objects, sequence);
    HashReadsBack(hash);
    ItoaReadsBack(objects);
    var fields := Split(Tell(Update(hash, objects, sequence)));
    if sequence != 0 {
      assert fields[3..] == ["seq=" + Itoa(sequence)];
      TrailerReadsBack(sequence);
    } else {
      assert fields[3..] == [];
    }
  }

  lemma RefusalFields(code: string, message: string)
    requires ' ' !in code
    ensures Split(Tell(Refusal(code, message))) == ["error", code] + Split(message)
  {
    SplitJoin(["error", code], message);
    assert ["error", code] + [message] == ["error", code, message];
  }

  // A refusal keeps its message whatever is in it; its code must be one field.
  lemma RefusalReadsBack(code: string, message: string)
    ensures ReadServer(Tell(Refusal(code, message))) == Some(Refusal(code, message)) <==> ' ' !in code
  {
    var line := Tell(Refusal(code, message));
    ReadFields(line);
    if ' ' !in code {
      RefusalFields(code, message);
      JoinSplit(message);
      assert Split(line)[2..] == Split(message);
    }
  }
}
