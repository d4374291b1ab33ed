/** The constant question bank: three difficulty tiers of multiple-choice questions. */
module QuizData {
  import opened Seqs

  /** The three difficulty tiers, keyed "fácil", "medio" and "difícil" in the bank. */
  datatype Difficulty = Easy | Medium | Hard

  /** One question: its id within the tier, its text, its four options and the index of the right one. */
  datatype Question = Question(id: int, question: string, options: seq<string>, correctIndex: int)

  /** The key under which the bank stores a tier. */
  function Key(d: Difficulty): (k: string)
    ensures k == "fácil" || k == "medio" || k == "difícil"
  {
    match d
    case Easy => "fácil"
    case Medium => "medio"
    case Hard => "difícil"
  }

  /** Different tiers are stored under different keys. */
  lemma KeyInjective(d1: Difficulty, d2: Difficulty)
    ensures Key(d1) == Key(d2) ==> d1 == d2
  {
    assert "fácil"[1] != "medio"[1] && "medio"[1] != "difícil"[1] && "fácil"[1] != "difícil"[1];
  }

  /** The bank itself, one entry per tier. */
  const QuizBank: map<Difficulty, seq<Question>> := map[
    Easy := EasyQuestions,
    Medium := MediumQuestions,
    Hard := HardQuestions
  ]

  const EasyQuestions: seq<Question> := [
      Question(1, "What is Cursor?",
        ["A web browser",
        "An AI-powered code editor based on VS Code",
        "A database management tool",
        "A version control system"],
        1),
      Question(2, "What is the main feature that makes Cursor different from other code editors?",
        ["Syntax highlighting",
        "AI-powered code completion and chat",
        "File explorer",
        "Terminal integration"],
        1),
      Question(3, "How do you open the AI chat in Cursor?",
        ["Press Ctrl+Shift+P",
        "Press Ctrl+L or Cmd+L",
        "Press Ctrl+K or Cmd+K",
        "Press Ctrl+J or Cmd+J"],
        1),
      Question(4, "What does 'Composer' refer to in Cursor?",
        ["A music player",
        "A feature for editing multiple files with AI",
        "A code formatter",
        "A theme editor"],
        1),
      Question(5, "What keyboard shortcut opens inline AI suggestions in Cursor?",
        ["Ctrl+Space",
        "Ctrl+K or Cmd+K",
        "Ctrl+Enter",
        "Ctrl+Shift+K"],
        1)
    ]

  const MediumQuestions: seq<Question> := [
      Question(1, "What is 'Tab' in Cursor?",
        ["A browser tab",
        "AI-powered autocomplete that suggests code as you type",
        "A file tab",
        "A keyboard key"],
        1),
      Question(2, "How can you use Cursor to refactor code across multiple files?",
        ["Using the Find and Replace feature",
        "Using Composer with @-mentions to reference multiple files",
        "Manually editing each file",
        "Using Git commands"],
        1),
      Question(3, "What does the '@' symbol do in Cursor's chat?",
        ["Mentions a user",
        "References files, folders, or code selections in your workspace",
        "Creates a comment",
        "Opens the command palette"],
        1),
      Question(4, "What is 'Cmd+K' (or Ctrl+K) used for in Cursor?",
        ["Opening the terminal",
        "Triggering inline AI edits in the current file",
        "Saving the file",
        "Closing the editor"],
        1),
      Question(5, "How does Cursor's AI understand your codebase context?",
        ["By reading all files at once",
        "By using embeddings and semantic search to find relevant code",
        "By asking you questions",
        "By analyzing Git history only"],
        1)
    ]

  const HardQuestions: seq<Question> := [
      Question(1, "What is the difference between Cursor's 'Chat' and 'Composer' features?",
        ["Chat is for single files, Composer is for multiple files",
        "Chat provides conversational assistance, Composer allows multi-file editing with AI",
        "There is no difference",
        "Chat is free, Composer requires payment"],
        1),
      Question(2, "How does Cursor's AI handle code context when you use @-mentions?",
        ["It reads the entire file",
        "It uses semantic search to find relevant code sections and includes them in the context",
        "It only reads the first 100 lines",
        "It requires manual code selection"],
        1),
      Question(3, "What is 'Agent Mode' in Cursor?",
        ["A debugging tool",
        "A feature where AI can autonomously make changes across your codebase",
        "A code formatter",
        "A terminal emulator"],
        1),
      Question(4, "How can you prevent Cursor from accessing certain files or folders?",
        ["Using .cursorignore file",
        "Using .gitignore file",
        "Using .cursorignore or .gitignore file",
        "There is no way to exclude files"],
        2),
      Question(5, "What is the purpose of Cursor's 'Rules' feature?",
        ["To enforce code style",
        "To provide custom instructions and guidelines for the AI to follow",
        "To validate syntax",
        "To manage keyboard shortcuts"],
        1)
    ]

  /** Every tier holds this many questions. */
  const TierSize := 5

  /** Every question offers this many options. */
  const OptionCount := 4

  /** A question with four options whose correct index names one of them. */
  predicate WellFormedQuestion(q: Question) {
    |q.options| == OptionCount && 0 <= q.correctIndex < |q.options|
  }

  /** A tier of well-formed questions numbered 1, 2, 3, ... in listed order. */
  predicate WellFormedTier(qs: seq<Question>) {
    forall i :: 0 <= i < |qs| ==> WellFormedQuestion(qs[i]) && qs[i].id == i + 1
  }

  /** The questions of a tier, as `quizData[difficulty]` reads them. */
  function Tier(d: Difficulty): (qs: seq<Question>)
    ensures |qs| == TierSize
    ensures WellFormedTier(qs)
  {
    assert d.Easy? || d.Medium? || d.Hard?;
    assert QuizBank.Keys == {Easy, Medium, Hard};
    QuizBank[d]
  }

  /** The ids of a list of questions, in order (`questions.map(q => q.id)`). */
  function Ids(qs: seq<Question>): (ids: seq<int>)
    ensures |ids| == |qs|
    ensures forall i :: 0 <= i < |qs| ==> ids[i] == qs[i].id
  {
    Map(qs, (q: Question) => q.id)
  }

  /** The bank has an entry for each of the three difficulties and no other. */
  lemma BankCoversEveryDifficulty()
    ensures QuizBank.Keys == {Easy, Medium, Hard}
    ensures forall d: Difficulty :: d in QuizBank
  {
    forall d: Difficulty ensures d in QuizBank {
      assert d.Easy? || d.Medium? || d.Hard?;
    }
  }

  /** Within a tier the ids are distinct, so an id names one question. */
  lemma {:induction false} TierIdsDistinct(d: Difficulty, i: int, j: int)
    requires 0 <= i < j < TierSize
    ensures Tier(d)[i].id != Tier(d)[j].id
  {
    var qs := Tier(d);
    assert qs[i].id == i + 1 && qs[j].id == j + 1;
  }

  /** The ids of every tier, in listed order, are exactly 1 through 5. */
  lemma TierIds(d: Difficulty)
    ensures Ids(Tier(d)) == [1, 2, 3, 4, 5]
  {
    var ids := Ids(Tier(d));
    assert ids[0] == 1 && ids[1] == 2 && ids[2] == 3 && ids[3] == 4 && ids[4] == 5;
  }

  /** A correct index always names an existing option of its question. */
  lemma CorrectOptionExists(d: Difficulty, i: int)
    requires 0 <= i < TierSize
    ensures 0 <= Tier(d)[i].correctIndex < OptionCount
    ensures |Tier(d)[i].options| == OptionCount
  {
    assert WellFormedQuestion(Tier(d)[i]);
  }
}
