/** Clearing a command of every signature at once. A few adjacent character
    pairs are chosen as keys so that every live signature needs one: its
    lead holds a key (or is `>`), or each of its alternatives does. Text in
    which no key and no `>` occurs is then matched by no signature. */
module ClassifierClearance {
  import opened Text
  import opened Classifier

  /** `a` followed by `b` is a key. */
  predicate IsKey(a: char, b: char) {
    match a
    case 'r' => b == 'm' || b == 'e' || b == 'g'
    case 'd' => b == 'd' || b == 'n'
    case 'm' => b == 'k' || b == 'v'
    case 'o' => b == 'r' || b == 'w' || b == 'c'
    case 'f' => b == 'd'
    case 'a' => b == 'r' || b == 'u'
    case ':' => b == '>'
    case 's' => b == 'h' || b == 'y' || b == 'e' || b == 'n'
    case 'w' => b == 'i'
    case 'h' => b == 'm' || b == 'a'
    case 'k' => b == 'i'
    case 'p' => b == 'k' || b == 'o'
    case 'y' => b == 'u'
    case 'u' => b == 'f' || b == 's'
    case 'i' => b == 'n'
    case 'g' => b == 'r'
    case 't' => b == 'r' || b == '-'
    case 'c' => b == 'r'
    case _ => false
  }

  /** Where the key of a word starts: at the first of its opening pairs that
      is a key. Some words open with a pair that ordinary commands also
      contain (`fo` in `foo`, `pa` in `pacman`, `ch` and `ho` in `echo`, `do`
      in `sudo`, `ap` and `pt` in `apt`), so their key lies further in. */
  function KeyIndex(word: string): nat {
    if |word| >= 2 && IsKey(word[0], word[1]) then 0
    else if |word| >= 3 && IsKey(word[1], word[2]) then 1
    else 2
  }

  /** `word` holds a key, at `KeyIndex(word)`. */
  predicate Keyed(word: string) {
    KeyIndex(word) + 1 < |word| && IsKey(word[KeyIndex(word)], word[KeyIndex(word) + 1])
  }

  /** `p` needs a key or a `>` in the text it matches: it is dead, its lead is
      `>` or holds a key, or it is `\bw\b.*(alts)` and every alternative holds
      a key. */
  predicate Guarded(p: Pattern) {
    || Keyed(Lead(p))
    || Lead(p) == ">"
    || p in DeadSignatures
    || (p.WordThen? && forall a | a in p.alts :: Keyed(a))
  }

  /** Every signature in `ps` is guarded. */
  predicate AllGuarded(ps: seq<Pattern>) {
    forall i | 0 <= i < |ps| :: Guarded(ps[i])
  }

  lemma JoinGuarded(a: seq<Pattern>, b: seq<Pattern>)
    requires AllGuarded(a) && AllGuarded(b)
    ensures AllGuarded(a + b)
  {
    forall i | 0 <= i < |a + b| ensures Guarded((a + b)[i]) {
      if i < |a| {
        assert (a + b)[i] == a[i];
      } else {
        assert (a + b)[i] == b[i - |a|];
      }
    }
  }

  lemma FileRemovalGuarded()
    ensures forall i | 0 <= i < |FileRemoval| :: Guarded(FileRemoval[i])
  {
  }

  lemma DiskWritesGuarded()
    ensures forall i | 0 <= i < |DiskWrites| :: Guarded(DiskWrites[i])
  {
  }

  lemma DeviceWritesGuarded()
    ensures forall i | 0 <= i < |DeviceWrites| :: Guarded(DeviceWrites[i])
  {
  }

  lemma PermissionsGuarded()
    ensures forall i | 0 <= i < |Permissions| :: Guarded(Permissions[i])
  {
  }

  lemma ProcessKillsGuarded()
    ensures forall i | 0 <= i < |ProcessKills| :: Guarded(ProcessKills[i])
  {
  }

  lemma ServiceChangesGuarded()
    ensures forall i | 0 <= i < |ServiceChanges| :: Guarded(ServiceChanges[i])
  {
  }

  /** `apt` is the one lead without a key; its alternatives `remove`,
      `purge` and `autoremove` hold one each. */
  lemma PackageRemovalGuarded()
    ensures forall i | 0 <= i < |PackageRemoval| :: Guarded(PackageRemoval[i])
  {
  }

  lemma ContainerRemovalGuarded()
    ensures forall i | 0 <= i < |ContainerRemoval| :: Guarded(ContainerRemoval[i])
  {
  }

  lemma FirewallChangesGuarded()
    ensures forall i | 0 <= i < |FirewallChanges| :: Guarded(FirewallChanges[i])
  {
  }

  lemma PowerChangesGuarded()
    ensures forall i | 0 <= i < |PowerChanges| :: Guarded(PowerChanges[i])
  {
  }

  lemma AccountChangesGuarded()
    ensures forall i | 0 <= i < |AccountChanges| :: Guarded(AccountChanges[i])
  {
  }

  lemma MovesGuarded()
    ensures forall i | 0 <= i < |Moves| :: Guarded(Moves[i])
  {
  }

  lemma TruncationGuarded()
    ensures forall i | 0 <= i < |Truncation| :: Guarded(Truncation[i])
  {
  }

  lemma CronWipesGuarded()
    ensures forall i | 0 <= i < |CronWipes| :: Guarded(CronWipes[i])
  {
  }

  lemma CatalogueGuarded()
    ensures forall k | 0 <= k < |Catalogue| :: Guarded(Catalogue[k])
  {
    FileRemovalGuarded();
    DiskWritesGuarded();
    DeviceWritesGuarded();
    PermissionsGuarded();
    ProcessKillsGuarded();
    ServiceChangesGuarded();
    PackageRemovalGuarded();
    ContainerRemovalGuarded();
    FirewallChangesGuarded();
    PowerChangesGuarded();
    AccountChangesGuarded();
    MovesGuarded();
    TruncationGuarded();
    CronWipesGuarded();
    JoinGuarded(FileRemoval, DiskWrites);
    JoinGuarded(FileRemoval + DiskWrites, DeviceWrites);
    JoinGuarded(FileRemoval + DiskWrites + DeviceWrites, Permissions);
    JoinGuarded(FileRemoval + DiskWrites + DeviceWrites + Permissions, ProcessKills);
    JoinGuarded(FileRemoval + DiskWrites + DeviceWrites + Permissions + ProcessKills, ServiceChanges);
    JoinGuarded(PackageRemoval, ContainerRemoval);
    JoinGuarded(PackageRemoval + ContainerRemoval, FirewallChanges);
    JoinGuarded(PackageRemoval + ContainerRemoval + FirewallChanges, PowerChanges);
    JoinGuarded(PackageRemoval + ContainerRemoval + FirewallChanges + PowerChanges, AccountChanges);
    JoinGuarded(PackageRemoval + ContainerRemoval + FirewallChanges + PowerChanges + AccountChanges, Moves);
    JoinGuarded(PackageRemoval + ContainerRemoval + FirewallChanges + PowerChanges + AccountChanges + Moves, Truncation);
    JoinGuarded(PackageRemoval + ContainerRemoval + FirewallChanges + PowerChanges + AccountChanges + Moves + Truncation, CronWipes);
    JoinGuarded(FirstGroups, LastGroups);
  }

  /** No key starts at `i` or later in `t`. */
  predicate NoKeysFrom(t: string, i: nat)
    decreases |t| - i
  {
    i + 1 >= |t| || (!IsKey(t[i], t[i + 1]) && NoKeysFrom(t, i + 1))
  }

  lemma {:induction false} NoKeysAfter(t: string, i: nat)
    requires NoKeysFrom(t, i)
    decreases |t| - i
    ensures forall j | i <= j < |t| - 1 :: !IsKey(t[j], t[j + 1])
  {
    if i + 1 < |t| {
      NoKeysAfter(t, i + 1);
    }
  }

  /** A word holding a key absent from `t` does not occur in `t` at `i`. */
  lemma KeyBlocks(t: string, i: int, w: string, k: nat)
    requires k + 1 < |w| && IsKey(w[k], w[k + 1])
    requires forall j | 0 <= j < |t| - 1 :: !IsKey(t[j], t[j + 1])
    ensures !OccursAt(t, i, w)
  {
    if 0 <= i && i + |w| <= |t| {
      assert t[i..i + |w|][k] == t[i + k];
      assert t[i..i + |w|][k + 1] == t[i + k + 1];
      assert !IsKey(t[i + k], t[i + k + 1]);
    }
  }

  /** A word that is `>` or holds a key does not occur in text without them. */
  lemma WordAbsent(t: string, w: string)
    requires '>' !in t
    requires forall j | 0 <= j < |t| - 1 :: !IsKey(t[j], t[j + 1])
    requires w == ">" || Keyed(w)
    ensures !Contains(t, w)
  {
    forall i | 0 <= i <= |t| - |w| ensures !OccursAt(t, i, w) {
      if w == ">" {
        assert t[i..i + 1][0] == t[i];
      } else {
        KeyBlocks(t, i, w, KeyIndex(w));
      }
    }
  }

  /** A guarded signature does not match lowercase text without keys and
      without `>`. */
  lemma GuardedNoMatch(p: Pattern, t: string)
    requires Guarded(p) && NoUpper(t) && '>' !in t
    requires forall j | 0 <= j < |t| - 1 :: !IsKey(t[j], t[j + 1])
    ensures !Matches(p, t)
  {
    if p in DeadSignatures {
      DeadNeverMatches(p, t);
    } else if Keyed(Lead(p)) || Lead(p) == ">" {
      WordAbsent(t, Lead(p));
      if Matches(p, t) {
        MatchHasLead(p, t);
      }
    } else {
      forall a | a in p.alts ensures !Contains(t, a) {
        WordAbsent(t, a);
      }
      AltsAbsentNoMatch(p.w, p.alts, t);
    }
  }

  /** A command whose normalised text holds no key and no `>` is not flagged. */
  lemma SafeText(command: string, t: string)
    requires Normalize(command) == t
    requires NoKeysFrom(t, 0) && '>' !in t
    ensures !IsDestructive(command)
  {
    CatalogueGuarded();
    NoKeysAfter(t, 0);
    forall k | 0 <= k < |Catalogue| ensures !Matches(Catalogue[k], t) {
      GuardedNoMatch(Catalogue[k], t);
    }
  }
}
