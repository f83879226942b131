/** The welcome form (src/app/components/welcome/welcome.component.ts):
    two inputs, a submit predicate and the outputs emitted on submit. */
module WelcomeComponent {
  import opened QuizTypes

  datatype WelcomeForm = WelcomeForm(inputFullName: string, inputPassword: string)

  /** The outputs, in the order the component emits them. */
  datatype WelcomeEvent =
    | FullNameChange(fullName: string)
    | PasswordChange(password: string)
    | ViewChange(view: View)

  const InitialForm := WelcomeForm("", "")

  /** The button is enabled exactly when submitting would emit neither an
      empty name nor an empty password. */
  function CanSubmit(w: WelcomeForm): (enabled: bool)
    ensures enabled <==> FullNameChange("") !in HandleSubmit(w) && PasswordChange("") !in HandleSubmit(w)
  {
    w.inputFullName != "" && w.inputPassword != ""
  }

  /** `handleSubmit` emits the name, then the password, then `'test'`. It
      does not consult `CanSubmit` and leaves the form as it is. */
  function HandleSubmit(w: WelcomeForm): (es: seq<WelcomeEvent>)
    ensures |es| == 3
    ensures es[0].FullNameChange? && es[0].fullName == w.inputFullName
    ensures es[1].PasswordChange? && es[1].password == w.inputPassword
    ensures es[2] == ViewChange(Test)
  {
    [FullNameChange(w.inputFullName), PasswordChange(w.inputPassword), ViewChange(Test)]
  }

  /** Submission is unconditional: even a form that cannot be submitted
      asks for the test view. */
  lemma SubmitIgnoresCanSubmit(w: WelcomeForm)
    ensures ViewChange(Test) in HandleSubmit(w)
    ensures !CanSubmit(w) <==> (FullNameChange("") in HandleSubmit(w) || PasswordChange("") in HandleSubmit(w))
  {
    var es := HandleSubmit(w);
    assert es[2] == ViewChange(Test);
    if FullNameChange("") in es {
      var i :| 0 <= i < 3 && es[i] == FullNameChange("");
    }
    if PasswordChange("") in es {
      var i :| 0 <= i < 3 && es[i] == PasswordChange("");
    }
  }
}
