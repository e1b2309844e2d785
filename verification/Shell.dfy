/** Shell quoting, and how a shell reads it back (POSIX.1-2017 Shell Command Language, sections 2.2.2 and 2.2.3). */
module Shell {
  import opened Wrappers

  // ---- quoting one word ----

  const QUOTED_QUOTE := "'\"'\"'"

  function EscapeQuotes(v: string): string {
    if v == [] then [] else (if v[0] == '\'' then QUOTED_QUOTE else [v[0]]) + EscapeQuotes(v[1..])
  }

  function ShellWord(v: string): string {
    "'" + EscapeQuotes(v) + "'"
  }

  // ---- how a shell reads words ----

  predicate BlankChar(c: char) { c == ' ' || c == '\t' }

  /** Characters with no meaning of their own outside quotes, in an argument word. */
  predicate PlainChar(c: char) {
    c !in {'|', '&', ';', '<', '>', '(', ')', '$', '`', '\\', '\"', '\'', ' ', '\t', '\n', '*', '?', '[', '#', '~', '%'}
  }

  /** Between words, in a bare stretch of a word, or inside single or double quotes. */
  datatype Mode = Between | Bare(word: string) | Single(word: string) | Double(word: string)

  /** One character of token recognition; None is anything beyond plain words and quotes. */
  function LexChar(c: char, mode: Mode, done: seq<string>): Option<(Mode, seq<string>)> {
    match mode
    case Single(w) => Some(if c == '\'' then (Bare(w), done) else (Single(w + [c]), done))
    case Double(w) =>
      if c == '\"' then Some((Bare(w), done))
      else if c == '$' || c == '`' || c == '\\' then None
      else Some((Double(w + [c]), done))
    case Between =>
      if BlankChar(c) then Some((Between, done))
      else if c == '\'' then Some((Single(""), done))
      else if c == '\"' then Some((Double(""), done))
      else if PlainChar(c) then Some((Bare([c]), done))
      else None
    case Bare(w) =>
      if BlankChar(c) then Some((Between, done + [w]))
      else if c == '\'' then Some((Single(w), done))
      else if c == '\"' then Some((Double(w), done))
      else if PlainChar(c) then Some((Bare(w + [c]), done))
      else None
  }

  function Lex(s: string, mode: Mode, done: seq<string>): Option<seq<string>>
    decreases |s|
  {
    if s == [] then
      match mode
      case Between => Some(done)
      case Bare(w) => Some(done + [w])
      case _ => None
    else
      match LexChar(s[0], mode, done)
      case None => None
      case Some((next, words)) => Lex(s[1..], next, words)
  }

  /** The argument words of a command line made of plain words and quotes. */
  function Words(s: string): Option<seq<string>> {
    Lex(s, Between, [])
  }

  lemma LexOne(c: char, rest: string, mode: Mode, done: seq<string>)
    ensures Lex([c] + rest, mode, done) ==
      match LexChar(c, mode, done) { case None => None case Some((next, words)) => Lex(rest, next, words) }
  {
    assert ([c] + rest)[1..] == rest;
  }

  lemma QuotedQuoteIsAQuote(rest: string, w: string, done: seq<string>)
    ensures Lex(QUOTED_QUOTE + rest, Single(w), done) == Lex(rest, Single(w + ['\'']), done)
  {
    hide Lex;
    LexOne('\'', "\"'\"'" + rest, Single(w), done);
    LexOne('\"', "'\"'" + rest, Bare(w), done);
    LexOne('\'', "\"'" + rest, Double(w), done);
    LexOne('\"', "'" + rest, Double(w + ['\'']), done);
    LexOne('\'', rest, Bare(w + ['\'']), done);
    assert QUOTED_QUOTE + rest == ['\''] + ("\"'\"'" + rest);
    assert "\"'\"'" + rest == ['\"'] + ("'\"'" + rest);
    assert "'\"'" + rest == ['\''] + ("\"'" + rest);
    assert "\"'" + rest == ['\"'] + ("'" + rest);
    assert "'" + rest == ['\''] + rest;
  }

  lemma {:induction false} InsideQuotes(v: string, rest: string, w: string, done: seq<string>)
    ensures Lex(EscapeQuotes(v) + ("'" + rest), Single(w), done) == Lex(rest, Bare(w + v), done)
    decreases |v|
  {
    hide Lex, QUOTED_QUOTE;
    if v == [] {
      LexOne('\'', rest, Single(w), done);
      assert EscapeQuotes(v) + ("'" + rest) == ['\''] + rest;
      assert w + v == w;
    } else {
      var tail := EscapeQuotes(v[1..]) + ("'" + rest);
      InsideQuotes(v[1..], rest, w + [v[0]], done);
      assert w + [v[0]] + v[1..] == w + v;
      if v[0] == '\'' {
        QuotedQuoteIsAQuote(tail, w, done);
        assert EscapeQuotes(v) + ("'" + rest) == QUOTED_QUOTE + tail;
      } else {
        LexOne(v[0], tail, Single(w), done);
        assert EscapeQuotes(v) + ("'" + rest) == [v[0]] + tail;
      }
    }
  }

  lemma ShellWordIsOneWord(v: string, rest: string, done: seq<string>)
    ensures Lex(ShellWord(v) + rest, Between, done) == Lex(rest, Bare(v), done)
  {
    hide Lex, EscapeQuotes;
    LexOne('\'', EscapeQuotes(v) + ("'" + rest), Between, done);
    InsideQuotes(v, rest, "", done);
    assert ShellWord(v) + rest == ['\''] + (EscapeQuotes(v) + ("'" + rest));
    assert "" + v == v;
  }

  // ---- command lines of flags and quoted values ----

  datatype Arg = Flag(text: string) | Value(text: string)

  predicate PlainWord(s: string) {
    s != [] && forall i :: 0 <= i < |s| ==> PlainChar(s[i])
  }

  function Render(arg: Arg): string {
    if arg.Flag? then arg.text else ShellWord(arg.text)
  }

  function RenderAll(args: seq<Arg>): string {
    if args == [] then [] else " " + Render(args[0]) + RenderAll(args[1..])
  }

  function Texts(args: seq<Arg>): seq<string> {
    if args == [] then [] else [args[0].text] + Texts(args[1..])
  }

  lemma {:induction false} PlainRun(s: string, rest: string, w: string, done: seq<string>)
    requires forall i :: 0 <= i < |s| ==> PlainChar(s[i])
    ensures Lex(s + rest, Bare(w), done) == Lex(rest, Bare(w + s), done)
    decreases |s|
  {
    hide Lex;
    if s == [] {
      assert s + rest == rest && w + s == w;
    } else {
      LexOne(s[0], s[1..] + rest, Bare(w), done);
      PlainRun(s[1..], rest, w + [s[0]], done);
      assert s + rest == [s[0]] + (s[1..] + rest);
      assert w + [s[0]] + s[1..] == w + s;
    }
  }

  lemma ArgIsOneWord(arg: Arg, rest: string, done: seq<string>)
    requires arg.Flag? ==> PlainWord(arg.text)
    ensures Lex(Render(arg) + rest, Between, done) == Lex(rest, Bare(arg.text), done)
  {
    hide Lex, ShellWord;
    if arg.Flag? {
      var s := arg.text;
      LexOne(s[0], s[1..] + rest, Between, done);
      PlainRun(s[1..], rest, [s[0]], done);
      assert s + rest == [s[0]] + (s[1..] + rest);
      assert [s[0]] + s[1..] == s;
    } else {
      ShellWordIsOneWord(arg.text, rest, done);
    }
  }

  lemma {:induction false} ArgsLex(args: seq<Arg>, w: string, done: seq<string>)
    requires forall a <- args :: a.Flag? ==> PlainWord(a.text)
    ensures Lex(RenderAll(args), Bare(w), done) == Some(done + [w] + Texts(args))
    decreases |args|
  {
    hide Lex, Render, PlainWord;
    if args == [] {
      assert done + [w] + [] == done + [w];
      LexEnd(w, done);
    } else {
      var rest := Render(args[0]) + RenderAll(args[1..]);
      LexOne(' ', rest, Bare(w), done);
      assert RenderAll(args) == [' '] + rest;
      ArgIsOneWord(args[0], RenderAll(args[1..]), done + [w]);
      ArgsLex(args[1..], args[0].text, done + [w]);
      assert done + [w] + [args[0].text] + Texts(args[1..]) == done + [w] + Texts(args);
    }
  }

  lemma LexEnd(w: string, done: seq<string>)
    ensures Lex([], Bare(w), done) == Some(done + [w])
  {
  }

  /** A shell reads back exactly the flags and the original values, whatever the values contain. */
  lemma ShellReadsBackArgs(args: seq<Arg>)
    requires forall a <- args :: a.Flag? ==> PlainWord(a.text)
    ensures Words(RenderAll(args)) == Some(Texts(args))
  {
    hide Lex, Render, PlainWord;
    if args == [] {
      assert Words([]) == Some([]) by { LexNothing(); }
    } else {
      var rest := Render(args[0]) + RenderAll(args[1..]);
      LexOne(' ', rest, Between, []);
      assert RenderAll(args) == [' '] + rest;
      ArgIsOneWord(args[0], RenderAll(args[1..]), []);
      ArgsLex(args[1..], args[0].text, []);
      assert [] + [args[0].text] + Texts(args[1..]) == Texts(args);
    }
  }

  lemma LexNothing()
    ensures Words([]) == Some([])
  {
  }

  ghost predicate FlagsArePlain(args: seq<Arg>) {
    forall a <- args :: a.Flag? ==> PlainWord(a.text)
  }

  const RUN_FLAGS := [Flag("run"), Flag("--rm"), Flag("-i")]
  const IMAGE_FLAGS := [Flag("--pull=never"), Flag("--read-only")]
  const TMPFS_MOUNT := "/tmp:rw,noexec,nosuid,size=16m"
  const TMPFS_FLAGS := [Flag("--tmpfs"), Flag(TMPFS_MOUNT)]
  const NETWORK_FLAGS := [Flag("--network")]
  const USER_FLAGS := [Flag("--user"), Flag("10001:10001"), Flag("--cap-drop"), Flag("ALL")]
  const PRIVILEGE_FLAGS := [Flag("--security-opt"), Flag("no-new-privileges")]
  const LIMIT_FLAGS := [Flag("--pids-limit"), Flag("64"), Flag("--ulimit")]
  const MEMORY_FLAGS := [Flag("nofile=64:64"), Flag("--memory")]
  const CPU_FLAGS := [Flag("--cpus")]

  /** The fixed sandbox flags of a container run, with its four caller-supplied values. */
  function DockerRunArgs(network: string, memory: string, cpus: string, image: string): seq<Arg> {
    RUN_FLAGS + IMAGE_FLAGS + TMPFS_FLAGS + NETWORK_FLAGS + [Value(network)]
    + USER_FLAGS + PRIVILEGE_FLAGS + LIMIT_FLAGS + MEMORY_FLAGS
    + [Value(memory)] + CPU_FLAGS + [Value(cpus), Value(image)]
  }

  /** Letters, digits, `=` and the characters from `,` to `:` mean nothing to a shell. */
  predicate Safe(c: char) {
    ',' <= c <= ':' || c == '=' || 'a' <= c <= 'z' || 'A' <= c <= 'Z'
  }

  ghost predicate FlagsAreSafe(args: seq<Arg>) {
    forall a <- args :: a.Flag? ==> SafeWord(a.text)
  }

  predicate SafeWord(s: string) {
    s != [] && forall i :: 0 <= i < |s| ==> Safe(s[i])
  }

  lemma SafeFlagsArePlain(args: seq<Arg>)
    requires FlagsAreSafe(args)
    ensures FlagsArePlain(args)
  {
    hide Safe, PlainChar;
    forall a, i | a in args && a.Flag? && 0 <= i < |a.text| ensures PlainChar(a.text[i]) {
      SafeIsPlain(a.text[i]);
    }
  }

  lemma SafeIsPlain(c: char)
    requires Safe(c)
    ensures PlainChar(c)
  {
  }

  lemma RunFlagsArePlain() ensures FlagsArePlain(RUN_FLAGS) { hide PlainWord; SafeFlagsArePlain(RUN_FLAGS); }
  lemma MountIsSafe() ensures SafeWord(TMPFS_MOUNT) {}
  lemma TmpfsFlagsArePlain() ensures FlagsArePlain(TMPFS_FLAGS)
  {
    hide PlainWord, TMPFS_MOUNT;
    MountIsSafe();
    SafeFlagsArePlain(TMPFS_FLAGS);
  }
  lemma NetworkFlagsArePlain() ensures FlagsArePlain(NETWORK_FLAGS)
  {
    hide PlainWord;
    SafeFlagsArePlain(NETWORK_FLAGS);
  }
  lemma ImageFlagsArePlain() ensures FlagsArePlain(IMAGE_FLAGS) { hide PlainWord; SafeFlagsArePlain(IMAGE_FLAGS); }
  lemma UserFlagsArePlain() ensures FlagsArePlain(USER_FLAGS) { hide PlainWord; SafeFlagsArePlain(USER_FLAGS); }
  lemma PrivilegeFlagsArePlain() ensures FlagsArePlain(PRIVILEGE_FLAGS)
  {
    hide PlainWord;
    SafeFlagsArePlain(PRIVILEGE_FLAGS);
  }
  lemma LimitFlagsArePlain() ensures FlagsArePlain(LIMIT_FLAGS) { hide PlainWord; SafeFlagsArePlain(LIMIT_FLAGS); }
  lemma MemoryFlagsArePlain() ensures FlagsArePlain(MEMORY_FLAGS) { hide PlainWord; SafeFlagsArePlain(MEMORY_FLAGS); }
  lemma CpuFlagsArePlain() ensures FlagsArePlain(CPU_FLAGS) { hide PlainWord; SafeFlagsArePlain(CPU_FLAGS); }

  predicate ImageStart(c: char) {
    'A' <= c <= 'Z' || 'a' <= c <= 'z' || '0' <= c <= '9'
  }

  /** The pattern that an image name must match. */
  predicate SafeContainerImage(image: string) {
    1 <= |image| <= 512 && ImageStart(image[0])
    && forall i :: 0 < i < |image| ==> ImageStart(image[i]) || image[i] in {'.', '_', ':', '/', '@', '-'}
  }

  /** A safe name starts with a letter or digit, and grows by letters, digits and six signs up to 512 characters. */
  lemma ImageNamesGrow(image: string, c: char)
    ensures !SafeContainerImage("")
    ensures var letterOrDigit := 'a' <= c <= 'z' || 'A' <= c <= 'Z' || '0' <= c <= '9';
            SafeContainerImage(image + [c]) <==>
              if image == "" then letterOrDigit
              else SafeContainerImage(image) && |image| < 512
                   && (letterOrDigit || c == '.' || c == '_' || c == ':' || c == '/' || c == '@' || c == '-')
  {
    assert forall i :: 0 <= i < |image| ==> (image + [c])[i] == image[i];
    assert (image + [c])[|image|] == c;
  }

  /** The container arguments, refused unless the image name is safe. */
  function ContainerArgs(network: string, memory: string, cpus: string, image: string): Option<string> {
    if SafeContainerImage(image) then Some(RenderAll(DockerRunArgs(network, memory, cpus, image))) else None
  }

  lemma WordsOfContainerArgs(network: string, memory: string, cpus: string, image: string)
    ensures Words(RenderAll(DockerRunArgs(network, memory, cpus, image)))
         == Some(Texts(DockerRunArgs(network, memory, cpus, image)))
  {
    hide Words, RenderAll, Texts, PlainWord, RUN_FLAGS, IMAGE_FLAGS, TMPFS_FLAGS, NETWORK_FLAGS, USER_FLAGS,
      PRIVILEGE_FLAGS, LIMIT_FLAGS, MEMORY_FLAGS, CPU_FLAGS;
    RunFlagsArePlain();
    ImageFlagsArePlain();
    TmpfsFlagsArePlain();
    NetworkFlagsArePlain();
    UserFlagsArePlain();
    PrivilegeFlagsArePlain();
    LimitFlagsArePlain();
    MemoryFlagsArePlain();
    CpuFlagsArePlain();
    ShellReadsBackArgs(DockerRunArgs(network, memory, cpus, image));
  }

  lemma {:induction false} TextsAreInOrder(args: seq<Arg>)
    ensures |Texts(args)| == |args| && forall i :: 0 <= i < |args| ==> Texts(args)[i] == args[i].text
  {
    if args != [] { TextsAreInOrder(args[1..]); }
  }

  /**
   * The words a shell passes on: the sandbox flags, whatever the four values are, each value whole in its own place,
   * and last the image, which no container runner can take for an option.
   */
  lemma ContainerFlagsAreFixed(network: string, memory: string, cpus: string, image: string)
    ensures ContainerArgs(network, memory, cpus, image).Some? <==> SafeContainerImage(image)
    ensures ContainerArgs(network, memory, cpus, image).Some? ==>
      var words := Words(ContainerArgs(network, memory, cpus, image).value);
      && words == Some(["run", "--rm", "-i", "--pull=never", "--read-only",
                        "--tmpfs", "/tmp:rw,noexec,nosuid,size=16m", "--network", network,
                        "--user", "10001:10001", "--cap-drop", "ALL", "--security-opt", "no-new-privileges",
                        "--pids-limit", "64", "--ulimit", "nofile=64:64", "--memory", memory, "--cpus", cpus, image])
      && image != "" && image[0] != '-'
  {
    hide Words, RenderAll, Texts, DockerRunArgs;
    WordsOfContainerArgs(network, memory, cpus, image);
    TextsOfRun(network, memory, cpus, image);
  }

  lemma MountText()
    ensures TMPFS_MOUNT == "/tmp:rw,noexec,nosuid,size=16m"
  {
  }

  lemma TextsOfRun(network: string, memory: string, cpus: string, image: string)
    ensures Texts(DockerRunArgs(network, memory, cpus, image)) ==
      ["run", "--rm", "-i", "--pull=never", "--read-only",
       "--tmpfs", "/tmp:rw,noexec,nosuid,size=16m", "--network", network,
       "--user", "10001:10001", "--cap-drop", "ALL", "--security-opt", "no-new-privileges",
       "--pids-limit", "64", "--ulimit", "nofile=64:64", "--memory", memory, "--cpus", cpus, image]
  {
    hide Texts, TMPFS_MOUNT;
    var args := DockerRunArgs(network, memory, cpus, image);
    TextsAreInOrder(args);
    MountText();
    assert |args| == 24;
  }
}
