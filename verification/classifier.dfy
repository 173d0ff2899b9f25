/**
  The destructive-command classifier. Every entry of the source's regular
  expression catalogue has one of three shapes, so a small pattern datatype
  replaces a general regular-expression engine:

    Word(w)             `\bw\b`
    WordThen(w, alts)   `\bw\b.*(a1|a2|...)`
    Redirect(op, tgt)   `\b` op `\s*` tgt

  `MatchesAt` gives the meaning of one pattern at one position as Python's
  `re` defines it; `Search` is the left-to-right scan that `re.search`
  performs, proved to find a match exactly when one exists.
 */
module Classifier {
  import opened Text

  /** The regular-expression class `\w`, restricted to ASCII. */
  predicate IsWordChar(c: char) {
    'a' <= c <= 'z' || 'A' <= c <= 'Z' || '0' <= c <= '9' || c == '_'
  }

  /** `\b` holds at position `i`: exactly one of the characters around it is a
      word character (the text's ends count as non-word). */
  predicate Boundary(s: string, i: int)
    requires 0 <= i <= |s|
  {
    (i > 0 && IsWordChar(s[i - 1])) != (i < |s| && IsWordChar(s[i]))
  }

  /** `\bw\b` matches at `i`. */
  predicate WordAt(s: string, i: int, w: string)
    requires 0 <= i <= |s|
  {
    OccursAt(s, i, w) && Boundary(s, i) && Boundary(s, i + |w|)
  }

  /** `.*` can consume `s[i..j]`: `.` matches everything but a newline. */
  predicate NoNewline(s: string, i: int, j: int)
    requires 0 <= i <= j <= |s|
  {
    forall k | i <= k < j :: s[k] != '\n'
  }

  /** `\s*` can consume `s[i..j]`. */
  predicate AllSpaces(s: string, i: int, j: int)
    requires 0 <= i <= j <= |s|
  {
    forall k | i <= k < j :: IsSpace(s[k])
  }

  /** One of the alternatives `(a1|a2|...)` occurs at `j`. */
  predicate AltAt(s: string, j: int, alts: seq<string>) {
    exists a | a in alts :: OccursAt(s, j, a)
  }

  datatype Pattern =
    | Word(w: string)
    | WordThen(w: string, alts: seq<string>)
    | Redirect(op: string, target: string)

  /** The regular expression `p` matches `s` starting at `i`. */
  predicate MatchesAt(p: Pattern, s: string, i: int)
    requires 0 <= i <= |s|
  {
    match p
    case Word(w) =>
      WordAt(s, i, w)
    case WordThen(w, alts) =>
      && WordAt(s, i, w)
      && exists j | i + |w| <= j <= |s| :: NoNewline(s, i + |w|, j) && AltAt(s, j, alts)
    case Redirect(op, target) =>
      && Boundary(s, i)
      && OccursAt(s, i, op)
      && exists j | i + |op| <= j <= |s| :: AllSpaces(s, i + |op|, j) && OccursAt(s, j, target)
  }

  /** `re.search(p, s)` succeeds: the pattern matches somewhere in `s`. */
  predicate Matches(p: Pattern, s: string) {
    exists i | 0 <= i <= |s| :: MatchesAt(p, s, i)
  }

  /** Scans forward from `j` over non-newline characters for an alternative. */
  function AltBeforeNewline(s: string, j: int, alts: seq<string>): (b: bool)
    requires 0 <= j <= |s|
    ensures b <==> exists k | j <= k <= |s| :: NoNewline(s, j, k) && AltAt(s, k, alts)
    decreases |s| - j
  {
    if AltAt(s, j, alts) then
      assert NoNewline(s, j, j);
      true
    else if j < |s| && s[j] != '\n' then
      var b := AltBeforeNewline(s, j + 1, alts);
      assert b ==> exists k | j <= k <= |s| :: NoNewline(s, j, k) && AltAt(s, k, alts) by {
        if b {
          var k :| j + 1 <= k <= |s| && NoNewline(s, j + 1, k) && AltAt(s, k, alts);
          assert NoNewline(s, j, k);
        }
      }
      b
    else
      false
  }

  /** Scans forward from `j` over whitespace for `target`. */
  function TargetAfterSpaces(s: string, j: int, target: string): (b: bool)
    requires 0 <= j <= |s|
    ensures b <==> exists k | j <= k <= |s| :: AllSpaces(s, j, k) && OccursAt(s, k, target)
    decreases |s| - j
  {
    if OccursAt(s, j, target) then
      assert AllSpaces(s, j, j);
      true
    else if j < |s| && IsSpace(s[j]) then
      var b := TargetAfterSpaces(s, j + 1, target);
      assert b ==> exists k | j <= k <= |s| :: AllSpaces(s, j, k) && OccursAt(s, k, target) by {
        if b {
          var k :| j + 1 <= k <= |s| && AllSpaces(s, j + 1, k) && OccursAt(s, k, target);
          assert AllSpaces(s, j, k);
        }
      }
      b
    else
      false
  }

  /** Tries the pattern at one position, as the regex engine does. */
  function TryAt(p: Pattern, s: string, i: int): (b: bool)
    requires 0 <= i <= |s|
    ensures b <==> MatchesAt(p, s, i)
  {
    match p
    case Word(w) => WordAt(s, i, w)
    case WordThen(w, alts) => WordAt(s, i, w) && AltBeforeNewline(s, i + |w|, alts)
    case Redirect(op, target) =>
      Boundary(s, i) && OccursAt(s, i, op) && TargetAfterSpaces(s, i + |op|, target)
  }

  /** Tries every start position from `i` onwards. */
  function SearchFrom(p: Pattern, s: string, i: int): (b: bool)
    requires 0 <= i <= |s|
    ensures b <==> exists k | i <= k <= |s| :: MatchesAt(p, s, k)
    decreases |s| - i
  {
    TryAt(p, s, i) || (i < |s| && SearchFrom(p, s, i + 1))
  }

  /** `re.search`: true exactly when the pattern matches somewhere. */
  function Search(p: Pattern, s: string): (b: bool)
    ensures b <==> Matches(p, s)
  {
    SearchFrom(p, s, 0)
  }

  /** Recursive or forced removal, and removal of paths. `-[rf]+` is satisfied
      exactly when `-r` or `-f` occurs, so it becomes two alternatives. */
  const FileRemoval: seq<Pattern> := [
    WordThen("rm", ["-r", "-f"]),
    WordThen("rm", ["/"])
  ]

  /** Raw device writes, formatting, partitioning, disk encryption. */
  const DiskWrites: seq<Pattern> := [
    Word("dd"),
    Word("mkfs"),
    Word("format"),
    Word("fdisk"),
    Word("parted"),
    WordThen("cryptsetup", ["luksFormat"])
  ]

  /** Truncation by redirection, shredding, signature wiping, writes into devices. */
  const DeviceWrites: seq<Pattern> := [
    Redirect(":>", "/"),
    Word("shred"),
    Word("wipefs"),
    Redirect(">", "/dev/")
  ]

  const Permissions: seq<Pattern> := [
    WordThen("chmod", ["777"]),
    Word("chown")
  ]

  const ProcessKills: seq<Pattern> := [
    WordThen("kill", ["-9"]),
    Word("killall"),
    Word("pkill")
  ]

  const ServiceChanges: seq<Pattern> := [
    WordThen("systemctl", ["stop", "disable", "mask", "restart"]),
    WordThen("service", ["stop", "disable", "restart"])
  ]

  const PackageRemoval: seq<Pattern> := [
    WordThen("apt-get", ["remove", "purge", "autoremove"]),
    WordThen("apt", ["remove", "purge", "autoremove"]),
    WordThen("yum", ["remove", "erase"]),
    WordThen("dnf", ["remove", "erase"]),
    WordThen("pacman", ["-R"]),
    WordThen("snap", ["remove"])
  ]

  const ContainerRemoval: seq<Pattern> := [
    WordThen("docker", ["rm", "rmi", "system prune"])
  ]

  const FirewallChanges: seq<Pattern> := [
    WordThen("iptables", ["-F"]),
    WordThen("ufw", ["disable"])
  ]

  const PowerChanges: seq<Pattern> := [
    WordThen("init", ["0"]),
    Word("shutdown"),
    Word("reboot"),
    Word("halt"),
    Word("poweroff")
  ]

  const AccountChanges: seq<Pattern> := [
    Word("userdel"),
    Word("usermod"),
    Word("groupdel")
  ]

  const Moves: seq<Pattern> := [WordThen("mv", ["/"])]

  const Truncation: seq<Pattern> := [Word("truncate")]

  const CronWipes: seq<Pattern> := [WordThen("crontab", ["-r"])]

  /** The 39 risk signatures, grouped by what they guard against but kept in
      the source's order. Three of them are written with capital letters:
      `luksFormat` (DiskWrites[5]), `-R` (PackageRemoval[4]) and `-F`
      (FirewallChanges[0]). */
  const Catalogue: seq<Pattern> := FirstGroups + LastGroups

  /** Removal, disk, device, permission, kill and service signatures. */
  const FirstGroups: seq<Pattern> :=
    FileRemoval + DiskWrites + DeviceWrites + Permissions + ProcessKills + ServiceChanges

  /** Package, container, firewall, power, account, move, truncation and cron signatures. */
  const LastGroups: seq<Pattern> :=
    PackageRemoval + ContainerRemoval + FirewallChanges + PowerChanges + AccountChanges + Moves + Truncation + CronWipes

  /** The text the catalogue is matched against: lowercased, then stripped. */
  function Normalize(command: string): (r: string)
    ensures NoUpper(r)
    ensures r == [] || (!IsSpace(r[0]) && !IsSpace(r[|r| - 1]))
    ensures exists i :: StrippedAt(Lower(command), i, r)
  {
    StripNoUpper(Lower(command));
    Strip(Lower(command))
  }

  /** A command already in lowercase and without surrounding whitespace is
      matched as written. */
  lemma NormalizeIdentity(command: string)
    requires NoUpper(command)
    requires command == [] || (!IsSpace(command[0]) && !IsSpace(command[|command| - 1]))
    ensures Normalize(command) == command
  {
    LowerIdentity(command);
  }

  lemma {:induction false} LowerIdentity(s: string)
    requires NoUpper(s)
    ensures Lower(s) == s
  {
    if s != [] {
      assert NoUpper(s[1..]) by {
        forall k | 0 <= k < |s[1..]| ensures !IsUpper(s[1..][k]) {
          assert s[1..][k] == s[k + 1];
        }
      }
      LowerIdentity(s[1..]);
      assert s == [s[0]] + s[1..];
    }
  }

  /** Stripping cannot introduce a capital letter. */
  lemma StripNoUpper(s: string)
    requires NoUpper(s)
    ensures NoUpper(Strip(s))
  {
    var r := Strip(s);
    var i :| StrippedAt(s, i, r);
    StrippedNoUpper(s, i, r);
  }

  lemma StrippedNoUpper(s: string, i: int, r: string)
    requires NoUpper(s) && StrippedAt(s, i, r)
    ensures NoUpper(r)
  {
    forall k | 0 <= k < |r| ensures !IsUpper(r[k]) {
      assert r[k] == s[i..i + |r|][k] == s[i + k];
    }
  }

  /** Tries the patterns in order and stops at the first that matches. */
  function AnyMatch(ps: seq<Pattern>, s: string): (b: bool)
    ensures b <==> exists k | 0 <= k < |ps| :: Matches(ps[k], s)
  {
    if ps == [] then false
    else if Search(ps[0], s) then true
    else
      var b := AnyMatch(ps[1..], s);
      assert forall k | 0 <= k < |ps[1..]| :: ps[1..][k] == ps[k + 1];
      b
  }

  /** The source's `is_destructive_command`: the command is destructive exactly
      when some catalogue pattern matches its lowercased, stripped text. */
  function IsDestructive(command: string): (b: bool)
    ensures b <==> exists k | 0 <= k < |Catalogue| :: Matches(Catalogue[k], Normalize(command))
  {
    CatalogueMatch(Normalize(command))
  }

  /** The catalogue search on text that is already normalised. */
  function CatalogueMatch(s: string): (b: bool)
    ensures b <==> exists k | 0 <= k < |Catalogue| :: Matches(Catalogue[k], s)
  {
    AnyMatch(Catalogue, s)
  }

  /** Only the set of patterns matters, not their order or repetition. */
  lemma OrderIrrelevant(ps: seq<Pattern>, qs: seq<Pattern>, s: string)
    requires forall p :: p in ps <==> p in qs
    ensures AnyMatch(ps, s) == AnyMatch(qs, s)
  {
    if AnyMatch(ps, s) {
      var k :| 0 <= k < |ps| && Matches(ps[k], s);
      assert ps[k] in qs;
      var k' :| 0 <= k' < |qs| && qs[k'] == ps[k];
    }
    if AnyMatch(qs, s) {
      var k :| 0 <= k < |qs| && Matches(qs[k], s);
      assert qs[k] in ps;
      var k' :| 0 <= k' < |ps| && ps[k'] == qs[k];
    }
  }

  /** Some character of `a` is a capital letter. */
  predicate HasUpper(a: string) {
    exists k | 0 <= k < |a| :: IsUpper(a[k])
  }

  /** Text without capitals never contains a literal with one. */
  lemma UpperLiteralAbsent(s: string, j: int, a: string)
    requires NoUpper(s) && HasUpper(a)
    ensures !OccursAt(s, j, a)
  {
    var k :| 0 <= k < |a| && IsUpper(a[k]);
    if 0 <= j && j + |a| <= |s| {
      assert s[j..j + |a|][k] == s[j + k];
      assert !IsUpper(s[j + k]);
    }
  }

  /** A pattern whose every alternative holds a capital letter cannot match
      lowercased text. */
  lemma UpperAlternativesDead(w: string, alts: seq<string>, s: string)
    requires NoUpper(s)
    requires forall a | a in alts :: HasUpper(a)
    ensures !Matches(WordThen(w, alts), s)
  {
    forall j, a | a in alts
      ensures !OccursAt(s, j, a)
    {
      UpperLiteralAbsent(s, j, a);
    }
  }

  /** The three signatures written with capitals (`luksFormat`, `-R`, `-F`):
      they never match, because the command is lowercased first. */
  const DeadSignatures: set<Pattern> := {
    WordThen("cryptsetup", ["luksFormat"]),
    WordThen("pacman", ["-R"]),
    WordThen("iptables", ["-F"])
  }

  /** A dead signature matches no lowercase text. */
  lemma DeadNeverMatches(p: Pattern, s: string)
    requires p in DeadSignatures && NoUpper(s)
    ensures !Matches(p, s)
  {
    assert HasUpper(p.alts[0]) by {
      if p.w == "cryptsetup" {
        assert IsUpper("luksFormat"[4]);
      } else {
        assert IsUpper(p.alts[0][1]);
      }
    }
    UpperAlternativesDead(p.w, p.alts, s);
  }

  /** The three catalogue entries written with capitals never match a command. */
  lemma DeadPatterns(command: string)
    ensures Catalogue[7] in DeadSignatures && !Matches(Catalogue[7], Normalize(command))
    ensures Catalogue[23] in DeadSignatures && !Matches(Catalogue[23], Normalize(command))
    ensures Catalogue[26] in DeadSignatures && !Matches(Catalogue[26], Normalize(command))
  {
    assert Catalogue[7] == WordThen("cryptsetup", ["luksFormat"]);
    assert Catalogue[23] == WordThen("pacman", ["-R"]);
    assert Catalogue[26] == WordThen("iptables", ["-F"]);
    DeadNeverMatches(Catalogue[7], Normalize(command));
    DeadNeverMatches(Catalogue[23], Normalize(command));
    DeadNeverMatches(Catalogue[26], Normalize(command));
  }

  /** The literal text every match of `p` starts with. */
  function Lead(p: Pattern): string {
    match p
    case Word(w) => w
    case WordThen(w, _) => w
    case Redirect(op, _) => op
  }

  /** A pattern matches only text that contains its lead. */
  lemma MatchHasLead(p: Pattern, s: string)
    requires Matches(p, s)
    ensures Contains(s, Lead(p))
  {
    var i :| 0 <= i <= |s| && MatchesAt(p, s, i);
    assert OccursAt(s, i, Lead(p));
  }

  /** The leads of the live signatures in the first six groups. */
  const FirstLeads: set<string> := {
    "rm", "dd", "mkfs", "format", "fdisk", "parted", ":>", "shred", "wipefs", ">",
    "chmod", "chown", "kill", "killall", "pkill", "systemctl", "service"
  }

  /** The leads of the live signatures in the remaining groups. */
  const LastLeads: set<string> := {
    "apt-get", "apt", "yum", "dnf", "snap", "docker", "ufw",
    "init", "shutdown", "reboot", "halt", "poweroff", "userdel", "usermod", "groupdel",
    "mv", "truncate", "crontab"
  }

  /** The leads of all signatures that can match. */
  const LiveLeads: set<string> := FirstLeads + LastLeads

  /** Every signature in `ps` is dead or has its lead among `leads`. */
  predicate Covered(ps: seq<Pattern>, leads: set<string>) {
    forall p | p in ps :: p in DeadSignatures || Lead(p) in leads
  }

  lemma FirstGroupsCovered()
    ensures Covered(FirstGroups, FirstLeads)
  {
  }

  lemma LastGroupsCovered()
    ensures Covered(LastGroups, LastLeads)
  {
  }

  lemma CatalogueCovered()
    ensures Covered(Catalogue, LiveLeads)
  {
    FirstGroupsCovered();
    LastGroupsCovered();
  }

  /** Lowercase text that contains no lead of a live signature matches no
      catalogue entry. */
  lemma NoLeadNoMatch(s: string)
    requires NoUpper(s)
    requires forall t | t in LiveLeads :: !Contains(s, t)
    ensures forall k | 0 <= k < |Catalogue| :: !Matches(Catalogue[k], s)
  {
    CatalogueCovered();
    forall k | 0 <= k < |Catalogue| ensures !Matches(Catalogue[k], s) {
      var p := Catalogue[k];
      assert p in Catalogue;
      if p in DeadSignatures {
        DeadNeverMatches(p, s);
      } else if Matches(p, s) {
        MatchHasLead(p, s);
      }
    }
  }

  /** `\bw\b.*(alts)` matches only text in which some alternative occurs. */
  lemma AltsAbsentNoMatch(w: string, alts: seq<string>, s: string)
    requires forall a | a in alts :: !Contains(s, a)
    ensures !Matches(WordThen(w, alts), s)
  {
    forall j, a | 0 <= j <= |s| && a in alts ensures !OccursAt(s, j, a) {
      assert !Contains(s, a);
    }
  }

  /** A command is flagged only if its normalised text contains the lead of a
      signature that can match. This states the classifier's reach in the
      catalogue's own words, and it clears commands that the key-pair
      condition of `ClassifierClearance.SafeText` cannot: `ls /home/user`
      contains no lead, but holds the key pairs `us` and `se`. The key-pair
      condition in turn clears text that contains a lead, such as the `apt`
      of `sudo apt update`. */
  lemma SafeWithoutLeads(command: string)
    requires forall t | t in LiveLeads :: !Contains(Normalize(command), t)
    ensures !IsDestructive(command)
  {
    NoLeadNoMatch(Normalize(command));
  }
}
