/** A directory entry as the characters of its block: what add_entry writes, and what a reader finds there. */
module SfsEntry {
  import opened SfsState

  const MAX_FNAME_LEN: nat := 255
  const ENTRY_BYTES: nat := 256       // sizeof(entry->name), which is also how much of the entry is written
  const STORED_NAME: nat := 252       // what the 4 characters of the inode number leave of that for the name

  /** A C string without its terminator. */
  type CString = s: string | '\0' !in s

  /** The static struct sfs_entry: 4 characters of inode number, then 256 of name. */
  type EntryBuffer = s: string | |s| == 260 witness Nuls(260)

  function Nuls(n: nat): string {
    seq(n, _ => '\0')
  }

  /** A 32-bit number in memory, low byte first. */
  function Word(n: nat): string {
    [(n % 256) as char, (n / 0x100 % 256) as char, (n / 0x1_0000 % 256) as char, (n / 0x100_0000 % 256) as char]
  }

  function ReadWord(s: string): nat {
    if |s| < 4 then 0
    else s[0] as nat + 0x100 * s[1] as nat + 0x1_0000 * s[2] as nat + 0x100_0000 * s[3] as nat
  }

  /** The characters before the first NUL. */
  function UpToNul(s: string): CString {
    if s == [] || s[0] == '\0' then [] else [s[0]] + UpToNul(s[1..])
  }

  /** The inode number of an entry block, and the name in it. */
  function InoOf(c: Content): nat {
    if c.Entry? then ReadWord(c.text) else 0
  }

  function NameOf(c: Content): CString {
    if c.Entry? && |c.text| >= 4 then UpToNul(c.text[4..]) else []
  }

  /** The buffer after entry->ino = ino and strcpy of the name: what follows the terminator stays as it was. */
  function Filled(entry: EntryBuffer, ino: nat, name: CString): EntryBuffer
    requires |name| <= MAX_FNAME_LEN
  {
    Word(ino) + name + ['\0'] + entry[|name| + 5..]
  }

  /** What write_block makes of the first 256 characters of the buffer. */
  function EntryBlock(entry: EntryBuffer): Content {
    Entry(entry[..ENTRY_BYTES] + Nuls(BLKSIZE - ENTRY_BYTES))
  }

  /** As much of a name as an entry keeps. */
  function Stored(name: CString): CString {
    if |name| <= STORED_NAME then name else name[..STORED_NAME]
  }

  /** A reader of the block finds the inode number and the name, cut at 252 characters. */
  ghost predicate IsEntry(c: Content, ino: nat, name: CString) {
    c.Entry? && |c.text| == BLKSIZE && InoOf(c) == ino && NameOf(c) == Stored(name)
  }

  lemma WordBack(n: nat, rest: string)
    ensures ReadWord(Word(n) + rest) == n % 0x1_0000_0000
  {
    LowBytes(n);
  }

  /** The four low digits of n in base 256. */
  lemma LowBytes(n: nat)
    ensures n % 0x100 + 0x100 * (n / 0x100 % 0x100) + 0x1_0000 * (n / 0x1_0000 % 0x100)
            + 0x100_0000 * (n / 0x100_0000 % 0x100) == n % 0x1_0000_0000
  {
    var high := n / 0x1_0000;
    TwoBytes(n);
    TwoBytes(high);
    assert high / 0x100 == n / 0x100_0000;
    assert n % 0x1_0000 + 0x1_0000 * (high % 0x1_0000) == n % 0x1_0000_0000;
  }

  lemma TwoBytes(n: nat)
    ensures n % 0x100 + 0x100 * (n / 0x100 % 0x100) == n % 0x1_0000
  {
    var low, high := n % 0x100, n / 0x100;
    var digit, rest := high % 0x100, high / 0x100;
    assert n == 0x1_0000 * rest + (low + 0x100 * digit);
  }

  lemma {:induction false} NulEnds(s: CString, rest: string)
    requires rest != [] && rest[0] == '\0'
    ensures UpToNul(s + rest) == s
  {
    if s == [] {
      assert s + rest == rest;
    } else {
      assert (s + rest)[1..] == s[1..] + rest;
      NulEnds(s[1..], rest);
    }
  }

  /** Whatever the buffer held, the block reads back as the number, if it has 32 bits, and as the name cut at 252. */
  lemma EntryReads(entry: EntryBuffer, ino: nat, name: CString)
    requires |name| <= MAX_FNAME_LEN
    ensures InoOf(EntryBlock(Filled(entry, ino, name))) == ino % 0x1_0000_0000
    ensures NameOf(EntryBlock(Filled(entry, ino, name))) == Stored(name)
    ensures |EntryBlock(Filled(entry, ino, name)).text| == BLKSIZE
  {
    hide ReadWord, Word, UpToNul;
    var filled := Filled(entry, ino, name);
    var text := EntryBlock(filled).text;
    assert |Word(ino)| == 4 by { WordLength(ino); }
    assert text == Word(ino) + text[4..];
    WordBack(ino, text[4..]);
    if |name| < STORED_NAME {
      assert filled[4 + |name|] == '\0';
      NulEnds(name, text[4 + |name|..]);
      assert text[4..] == name + text[4 + |name|..];
    } else {
      NulEnds(Stored(name), Nuls(BLKSIZE - ENTRY_BYTES));
      assert text[4..] == Stored(name) + Nuls(BLKSIZE - ENTRY_BYTES);
    }
  }

  lemma WordLength(n: nat)
    ensures |Word(n)| == 4
  {
  }

  /** The characters of the block: four of the number, low byte first, then the name, its terminator if there is room
      for it in the first 256, and zeros from there on. */
  lemma EntryCharacters(entry: EntryBuffer, ino: nat, name: CString)
    requires |name| <= MAX_FNAME_LEN
    ensures var t := EntryBlock(Filled(entry, ino, name)).text;
            && |t| == 4096
            && t[0] as nat == ino % 256 && t[1] as nat == ino / 256 % 256
            && t[2] as nat == ino / 65536 % 256 && t[3] as nat == ino / 16777216 % 256
            && (forall k | 0 <= k < |name| && k < 252 :: t[4 + k] == name[k])
            && (|name| < 252 ==> t[4 + |name|] == '\0')
            && forall k | 256 <= k < 4096 :: t[k] == '\0'
  {
    hide Word;
    WordLength(ino);
    WordChars(ino);
    var filled := Filled(entry, ino, name);
    assert filled[..4] == Word(ino);
    assert forall k | 0 <= k < |name| :: filled[4 + k] == name[k];
  }

  lemma WordChars(n: nat)
    ensures var w := Word(n);
            && |w| == 4 && w[0] as nat == n % 256 && w[1] as nat == n / 256 % 256
            && w[2] as nat == n / 65536 % 256 && w[3] as nat == n / 16777216 % 256
  {
  }

  /** A name can be read back whole exactly when it has at most 252 characters, not the 255 the walk lets through. */
  lemma NameWhole(entry: EntryBuffer, ino: nat, name: CString)
    requires |name| <= MAX_FNAME_LEN
    ensures NameOf(EntryBlock(Filled(entry, ino, name))) == name <==> |name| <= STORED_NAME
  {
    EntryReads(entry, ino, name);
  }
}
