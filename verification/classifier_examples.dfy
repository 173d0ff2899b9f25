/** The classifier on example commands: some it flags, some it lets through. */
module ClassifierExamples {
  import opened Text
  import opened Classifier
  import opened ClassifierClearance

  /** Lowercase text without surrounding whitespace is classified as written. */
  predicate Normal(s: string) {
    NoUpper(s) && (s == [] || (!IsSpace(s[0]) && !IsSpace(s[|s| - 1])))
  }

  /** Catalogue entry `k` matching the command at `i` makes it destructive. */
  lemma FlaggedBy(s: string, k: nat, i: nat)
    requires Normal(s)
    requires k < |Catalogue| && i <= |s| && MatchesAt(Catalogue[k], s, i)
    ensures IsDestructive(s)
  {
    NormalizeIdentity(s);
    EntryFlags(s, s, k, i);
  }

  lemma EntryFlags(command: string, t: string, k: nat, i: nat)
    requires Normalize(command) == t
    requires k < |Catalogue| && i <= |t| && MatchesAt(Catalogue[k], t, i)
    ensures IsDestructive(command)
  {
  }

  /** A command whose lowercase form has no surrounding whitespace
      normalises to that form. */
  lemma LowerThenStrip(command: string, s: string)
    requires |command| == |s| && forall k | 0 <= k < |s| :: LowerChar(command[k]) == s[k]
    requires s == [] || (!IsSpace(s[0]) && !IsSpace(s[|s| - 1]))
    ensures Normalize(command) == s
  {
    assert Lower(command) == s;
    StripIdentity(s);
  }

  /** `\bw\b.*(alts)` matches at `i` once `w` sits between boundaries there
      and alternative `a` follows on the same line at `j`. */
  lemma WordThenMatches(s: string, w: string, alts: seq<string>, i: nat, j: nat, a: string)
    requires i <= |s| && WordAt(s, i, w)
    requires i + |w| <= j <= |s| && NoNewline(s, i + |w|, j)
    requires a in alts && OccursAt(s, j, a)
    ensures MatchesAt(WordThen(w, alts), s, i)
  {
    assert AltAt(s, j, alts);
  }

  lemma RecursiveRemovalIsFlagged(s: string)
    requires s == "rm -rf /var/x"
    ensures IsDestructive(s)
  {
    assert Normal(s);
    assert Catalogue[0] == WordThen("rm", ["-r", "-f"]);
    assert WordAt(s, 0, "rm");
    assert NoNewline(s, 2, 3) && OccursAt(s, 3, "-r");
    WordThenMatches(s, "rm", ["-r", "-f"], 0, 3, "-r");
    FlaggedBy(s, 0, 0);
  }

  lemma DiskCopyIsFlagged(s: string)
    requires s == "dd if=/dev/zero of=/dev/sda"
    ensures IsDestructive(s)
  {
    assert Normal(s);
    assert Catalogue[2] == Word("dd");
    assert WordAt(s, 0, "dd");
    FlaggedBy(s, 2, 0);
  }

  lemma ServiceRestartIsFlagged(s: string)
    requires s == "systemctl restart nginx"
    ensures IsDestructive(s)
  {
    assert Normal(s);
    var p := WordThen("systemctl", ["stop", "disable", "mask", "restart"]);
    assert Catalogue[17] == p;
    assert WordAt(s, 0, "systemctl");
    assert NoNewline(s, 9, 10) && OccursAt(s, 10, "restart");
    WordThenMatches(s, p.w, p.alts, 0, 10, "restart");
    FlaggedBy(s, 17, 0);
  }

  lemma ShutdownIsFlagged(s: string)
    requires s == "shutdown now"
    ensures IsDestructive(s)
  {
    assert Normal(s);
    assert Catalogue[29] == Word("shutdown");
    assert WordAt(s, 0, "shutdown");
    FlaggedBy(s, 29, 0);
  }

  lemma UserDeletionIsFlagged(s: string)
    requires s == "userdel bob"
    ensures IsDestructive(s)
  {
    assert Normal(s);
    assert Catalogue[33] == Word("userdel");
    assert WordAt(s, 0, "userdel");
    FlaggedBy(s, 33, 0);
  }

  lemma MoveFromRootIsFlagged(s: string)
    requires s == "mv /etc/foo /tmp/"
    ensures IsDestructive(s)
  {
    assert Normal(s);
    assert Catalogue[36] == WordThen("mv", ["/"]);
    assert WordAt(s, 0, "mv");
    assert NoNewline(s, 2, 3) && OccursAt(s, 3, "/");
    WordThenMatches(s, "mv", ["/"], 0, 3, "/");
    FlaggedBy(s, 36, 0);
  }

  /** A redirection glued to a word reaches the device-write signature. */
  lemma GluedRedirectIsFlagged(s: string)
    requires s == "echo data>/dev/sda"
    ensures IsDestructive(s)
  {
    assert Normal(s);
    assert Catalogue[11] == Redirect(">", "/dev/");
    assert Boundary(s, 9) && OccursAt(s, 9, ">");
    assert s[10..15] == "/dev/";
    assert AllSpaces(s, 10, 10) && OccursAt(s, 10, "/dev/");
    FlaggedBy(s, 11, 9);
  }

  /** `iptables -F` reaches the classifier as `iptables -f`, which the flush
      signature written with `-F` cannot match, and no other signature flags it. */
  lemma FirewallFlushEscapesItsSignature(command: string)
    requires command == "iptables -F"
    ensures Normalize(command) == "iptables -f"
    ensures !Matches(WordThen("iptables", ["-F"]), Normalize(command))
    ensures !IsDestructive(command)
  {
    var t := "iptables -f";
    LowerThenStrip(command, t);
    DeadNeverMatches(WordThen("iptables", ["-F"]), t);
    FirewallFlushKeyFree(t);
    SafeText(command, t);
  }

  /** Likewise `pacman -R foo` reaches it as `pacman -r foo`. */
  lemma PackageRemovalEscapesItsSignature(command: string)
    requires command == "pacman -R foo"
    ensures Normalize(command) == "pacman -r foo"
    ensures !Matches(WordThen("pacman", ["-R"]), Normalize(command))
    ensures !IsDestructive(command)
  {
    var t := "pacman -r foo";
    LowerThenStrip(command, t);
    DeadNeverMatches(WordThen("pacman", ["-R"]), t);
    PackageRemovalKeyFree(t);
    SafeText(command, t);
  }

  lemma ListingIsSafe(command: string)
    requires command == "ls -la"
    ensures !IsDestructive(command)
  {
    assert Normal(command);
    NormalizeIdentity(command);
    ListingKeyFree(command);
    SafeText(command, command);
  }

  lemma DiskUsageIsSafe(command: string)
    requires command == "df -h"
    ensures !IsDestructive(command)
  {
    assert Normal(command);
    NormalizeIdentity(command);
    DiskUsageKeyFree(command);
    SafeText(command, command);
  }

  lemma UptimeIsSafe(command: string)
    requires command == "uptime"
    ensures !IsDestructive(command)
  {
    assert Normal(command);
    NormalizeIdentity(command);
    UptimeKeyFree(command);
    SafeText(command, command);
  }

  lemma EchoIsSafe(command: string)
    requires command == "echo hi"
    ensures !IsDestructive(command)
  {
    assert Normal(command);
    NormalizeIdentity(command);
    EchoKeyFree(command);
    SafeText(command, command);
  }

  /** `sudo apt update` is not flagged: `apt` occurs in it, but none of the
      removals its signature looks for. */
  lemma SudoAptUpdateIsSafe(command: string)
    requires command == "sudo apt update"
    ensures !IsDestructive(command)
  {
    assert Normal(command);
    NormalizeIdentity(command);
    SudoAptKeyFree(command);
    SafeText(command, command);
  }

  /* The example texts hold no key and no `>`. */

  lemma ListingKeyFree(t: string)
    requires t == "ls -la"
    ensures NoKeysFrom(t, 0) && '>' !in t
  {
    assert NoKeysFrom(t, 4);
    assert NoKeysFrom(t, 3);
    assert NoKeysFrom(t, 2);
    assert NoKeysFrom(t, 1);
  }

  lemma DiskUsageKeyFree(t: string)
    requires t == "df -h"
    ensures NoKeysFrom(t, 0) && '>' !in t
  {
    assert NoKeysFrom(t, 3);
    assert NoKeysFrom(t, 2);
    assert NoKeysFrom(t, 1);
  }

  lemma UptimeKeyFree(t: string)
    requires t == "uptime"
    ensures NoKeysFrom(t, 0) && '>' !in t
  {
    assert NoKeysFrom(t, 4);
    assert NoKeysFrom(t, 3);
    assert NoKeysFrom(t, 2);
    assert NoKeysFrom(t, 1);
  }

  lemma EchoKeyFree(t: string)
    requires t == "echo hi"
    ensures NoKeysFrom(t, 0) && '>' !in t
  {
    assert NoKeysFrom(t, 5);
    assert NoKeysFrom(t, 4);
    assert NoKeysFrom(t, 3);
    assert NoKeysFrom(t, 2);
    assert NoKeysFrom(t, 1);
  }

  lemma FirewallFlushKeyFree(t: string)
    requires t == "iptables -f"
    ensures NoKeysFrom(t, 0) && '>' !in t
  {
    assert NoKeysFrom(t, 9);
    assert NoKeysFrom(t, 8);
    assert NoKeysFrom(t, 7);
    assert NoKeysFrom(t, 6);
    assert NoKeysFrom(t, 5);
    assert NoKeysFrom(t, 4);
    assert NoKeysFrom(t, 3);
    assert NoKeysFrom(t, 2);
    assert NoKeysFrom(t, 1);
  }

  lemma PackageRemovalKeyFree(t: string)
    requires t == "pacman -r foo"
    ensures NoKeysFrom(t, 0) && '>' !in t
  {
    assert NoKeysFrom(t, 11);
    assert NoKeysFrom(t, 10);
    assert NoKeysFrom(t, 9);
    assert NoKeysFrom(t, 8);
    assert NoKeysFrom(t, 7);
    assert NoKeysFrom(t, 6);
    assert NoKeysFrom(t, 5);
    assert NoKeysFrom(t, 4);
    assert NoKeysFrom(t, 3);
    assert NoKeysFrom(t, 2);
    assert NoKeysFrom(t, 1);
  }

  lemma SudoAptKeyFree(t: string)
    requires t == "sudo apt update"
    ensures NoKeysFrom(t, 0) && '>' !in t
  {
    assert NoKeysFrom(t, 13);
    assert NoKeysFrom(t, 12);
    assert NoKeysFrom(t, 11);
    assert NoKeysFrom(t, 10);
    assert NoKeysFrom(t, 9);
    assert NoKeysFrom(t, 8);
    assert NoKeysFrom(t, 7);
    assert NoKeysFrom(t, 6);
    assert NoKeysFrom(t, 5);
    assert NoKeysFrom(t, 4);
    assert NoKeysFrom(t, 3);
    assert NoKeysFrom(t, 2);
    assert NoKeysFrom(t, 1);
  }
}
