/** Exactly which blocks and command lines are accepted, said of the list of their options as a whole. */
module MpiexecOptions {
  import opened Common
  import opened Decimal
  import opened MpiexecSpec

  /** An option as it stands in a block, trimmed and without its dash; no value when none belongs to it or is left. */
  datatype Given = Given(name: string, value: Option<string>)

  predicate IsCount(o: Given) { o.name == "n" || o.name == "np" }
  predicate IsWdir(o: Given) { o.name == "wdir" || o.name == "dir" }
  predicate IsPath(o: Given) { o.name == "path" }
  predicate IsHost(o: Given) { o.name == "host" }

  predicate HasValue(o: Given) { IsCount(o) || IsWdir(o) || IsPath(o) || IsHost(o) }

  /** An option after which nothing is parsed: a misplaced file, or a call for help. */
  predicate Stops(o: Given) {
    o.name == "configfile" || o.name == "help" || (o.name != [] && o.name[0] == '?')
  }

  function FirstGiven(args: seq<string>): Given
    requires args != [] && IsOption(args[0])
  {
    var o := Given(Trim(args[0])[1..], None);
    if HasValue(o) && |args| >= 2 then o.(value := Some(args[1])) else o
  }

  function Width(o: Given): nat { if o.value.Some? then 2 else 1 }

  /** All options of a block, whether they make sense or not, and what comes after them. */
  function AllGiven(args: seq<string>): (seq<Given>, seq<string>)
    decreases |args|
  {
    if args == [] || !IsOption(args[0]) then ([], args)
    else
      var o := FirstGiven(args);
      var (more, rest) := AllGiven(args[Width(o)..]);
      ([o] + more, rest)
  }

  // ------------------------------------------------------------------- which lists are accepted

  /** Each option by itself: it goes on, has its value, and a count is a positive number. */
  predicate FineAlone(o: Given) {
    !Stops(o) && (HasValue(o) ==> o.value.Some?) && (IsCount(o) ==> Atoi(o.value.value) >= 1)
  }

  predicate AllFine(os: seq<Given>) {
    forall i :: 0 <= i < |os| ==> FineAlone(os[i])
  }

  /** No count comes after another, and no host after one that is not empty. */
  predicate FinePairs(os: seq<Given>) {
    forall i, j :: 0 <= i < j < |os| ==> !Clash(os[i], os[j])
  }

  predicate Clash(o: Given, later: Given) {
    (IsCount(o) && IsCount(later)) || (IsHost(o) && IsHost(later) && o.value != Some([]))
  }

  /** What the settings so far rule out. */
  predicate Ruled(s: Settings, o: Given) {
    (IsCount(o) && s.nproc != 0) || (IsHost(o) && s.host != [])
  }

  predicate NotRuled(s: Settings, os: seq<Given>) {
    forall i :: 0 <= i < |os| ==> !Ruled(s, os[i])
  }

  predicate Accepted(s: Settings, os: seq<Given>) {
    AllFine(os) && FinePairs(os) && NotRuled(s, os)
  }

  function SetBy(s: Settings, o: Given): Settings {
    if o.value.None? then s
    else if IsCount(o) then s.(nproc := Atoi(o.value.value))
    else if IsWdir(o) then s.(wdir := o.value.value)
    else if IsPath(o) then s.(path := o.value.value)
    else if IsHost(o) then s.(host := o.value.value)
    else s
  }

  /** Settings after a list of options: the last of each kind. */
  function SetByAll(s: Settings, os: seq<Given>): Settings
    decreases |os|
  {
    if os == [] then s else SetByAll(SetBy(s, os[0]), os[1..])
  }

  lemma FirstStep(s: Settings, args: seq<string>)
    requires args != [] && IsOption(args[0])
    ensures var o := FirstGiven(args);
            var r := OneOption(s, args);
            && (r.Use? <==> FineAlone(o) && !Ruled(s, o))
            && (r.Use? ==> r == Use(SetBy(s, o), Width(o)))
  {
  }

  lemma AcceptedCons(s: Settings, o: Given, os: seq<Given>)
    requires FineAlone(o) && !Ruled(s, o)
    ensures Accepted(s, [o] + os) <==> Accepted(SetBy(s, o), os)
  {
    var all, s' := [o] + os, SetBy(s, o);
    assert forall i :: 0 <= i < |os| ==> all[i + 1] == os[i];
    forall p
      ensures Ruled(s', p) <==> Ruled(s, p) || Clash(o, p)
    {
    }
    if Accepted(s, all) {
      forall i | 0 <= i < |os|
        ensures FineAlone(os[i]) && !Ruled(s', os[i])
      {
        assert !Clash(all[0], all[i + 1]) && FineAlone(all[i + 1]) && !Ruled(s, all[i + 1]);
      }
      forall i, j | 0 <= i < j < |os|
        ensures !Clash(os[i], os[j])
      {
        assert !Clash(all[i + 1], all[j + 1]);
      }
    }
    if Accepted(s', os) {
      forall i, j | 0 <= i < j < |all|
        ensures !Clash(all[i], all[j])
      {
        assert all[j] == os[j - 1] && !Ruled(s', os[j - 1]);
        if i > 0 { assert all[i] == os[i - 1]; }
      }
      forall i | 0 <= i < |all|
        ensures FineAlone(all[i]) && !Ruled(s, all[i])
      {
        if i > 0 { assert all[i] == os[i - 1] && !Ruled(s', os[i - 1]); }
      }
    }
  }

  lemma {:induction false} OptionsIff(s: Settings, args: seq<string>)
    ensures var (os, rest) := AllGiven(args);
            && (Options(s, args).Scanned? <==> Accepted(s, os))
            && (Accepted(s, os) ==> Options(s, args) == Scanned(SetByAll(s, os), rest))
    decreases |args|
  {
    if args != [] && IsOption(args[0]) {
      var o := FirstGiven(args);
      var (os, rest) := AllGiven(args[Width(o)..]);
      FirstStep(s, args);
      assert ([o] + os)[0] == o && ([o] + os)[1..] == os;
      if FineAlone(o) && !Ruled(s, o) {
        AcceptedCons(s, o, os);
        OptionsIff(SetBy(s, o), args[Width(o)..]);
      }
    }
  }

  ghost predicate HasCount(os: seq<Given>) {
    exists i :: 0 <= i < |os| && IsCount(os[i])
  }

  lemma {:induction false} CountIsSet(s: Settings, os: seq<Given>)
    requires AllFine(os)
    ensures SetByAll(s, os).nproc != 0 <==> s.nproc != 0 || HasCount(os)
    decreases |os|
  {
    if os != [] {
      assert forall i :: 0 < i < |os| ==> os[i] == os[1..][i - 1];
      CountIsSet(SetBy(s, os[0]), os[1..]);
      assert FineAlone(os[0]);
      if HasCount(os) && !IsCount(os[0]) {
        var i :| 0 <= i < |os| && IsCount(os[i]);
        assert os[1..][i - 1] == os[i];
      }
      if HasCount(os[1..]) {
        var i :| 0 <= i < |os[1..]| && IsCount(os[1..][i]);
        assert os[i + 1] == os[1..][i];
      }
    }
  }

  /**
   A block is parsed exactly when each of its options is fine, no two clash, one is a count, and
   an executable follows; then the last option of each kind decides.
   */
  lemma BlockParsesIff(args: seq<string>)
    ensures var (os, rest) := AllGiven(args);
            var ok := AllFine(os) && FinePairs(os) && HasCount(os) && rest != [];
            var s := SetByAll(NO_SETTINGS, os);
            && (ParseBlock(args).Parsed? <==> ok)
            && (ok ==> ParseBlock(args) == Parsed([Command(rest[0], rest[1..], s.nproc, s.wdir, s.path, s.host)]))
  {
    var (os, rest) := AllGiven(args);
    OptionsIff(NO_SETTINGS, args);
    if AllFine(os) { CountIsSet(NO_SETTINGS, os); }
    assert NotRuled(NO_SETTINGS, os);
  }

  // ------------------------------------------------------------------- whole command lines

  /** The command line is parsed exactly when every block is; otherwise the first that is not decides. */
  lemma {:induction false} FirstFailureDecides(files: Files, blocks: seq<seq<string>>)
    ensures ParseBlocks(files, blocks).Parsed? <==> forall i :: 0 <= i < |blocks| ==> ParseEntry(files, blocks[i]).Parsed?
    ensures forall i :: 0 <= i < |blocks| && !ParseEntry(files, blocks[i]).Parsed? &&
              (forall j :: 0 <= j < i ==> ParseEntry(files, blocks[j]).Parsed?)
              ==> ParseBlocks(files, blocks) == ParseEntry(files, blocks[i])
  {
    if blocks != [] {
      FirstFailureDecides(files, blocks[1..]);
      assert forall i :: 0 < i < |blocks| ==> blocks[i] == blocks[1..][i - 1];
    }
  }
}
