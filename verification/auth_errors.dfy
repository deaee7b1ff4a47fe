/** `mapSupabaseAuthError` (src/utils/errors.ts): the sign-up error message
    shown for a provider error message, chosen by case-sensitive substring
    tests in a fixed priority order. */
module AuthErrors {
  import opened Text

  const PasswordMessage := "La contraseña debe tener al menos 6 caracteres."
  const AlreadyRegisteredMessage := "Este email ya está registrado."
  const InvalidEmailMessage := "El email ingresado no es válido."
  const FallbackMessage := "No se pudo crear la cuenta. Inténtalo nuevamente."

  /** `sub` occurs somewhere in `s`. */
  ghost predicate Mentions(s: string, sub: string)
  {
    exists i :: OccursAt(s, sub, i)
  }

  /** The four messages are pairwise different. */
  lemma MessagesDistinct()
    ensures PasswordMessage != AlreadyRegisteredMessage && PasswordMessage != InvalidEmailMessage
    ensures PasswordMessage != FallbackMessage && AlreadyRegisteredMessage != InvalidEmailMessage
    ensures AlreadyRegisteredMessage != FallbackMessage && InvalidEmailMessage != FallbackMessage
  {
    assert |PasswordMessage| == 47 && |AlreadyRegisteredMessage| == 30;
    assert |InvalidEmailMessage| == 32 && |FallbackMessage| == 49;
  }

  /** The mapping: each message is chosen exactly when its substring occurs
      and no earlier one does. */
  function MapAuthError(errorMessage: string): (r: string)
    ensures r == PasswordMessage <==> Mentions(errorMessage, "password")
    ensures r == AlreadyRegisteredMessage <==>
              !Mentions(errorMessage, "password") && Mentions(errorMessage, "already registered")
    ensures r == InvalidEmailMessage <==>
              && !Mentions(errorMessage, "password") && !Mentions(errorMessage, "already registered")
              && Mentions(errorMessage, "invalid email")
    ensures r == FallbackMessage <==>
              && !Mentions(errorMessage, "password") && !Mentions(errorMessage, "already registered")
              && !Mentions(errorMessage, "invalid email")
  {
    MessagesDistinct();
    ContainsIffOccurs(errorMessage, "password");
    ContainsIffOccurs(errorMessage, "already registered");
    ContainsIffOccurs(errorMessage, "invalid email");
    if Contains(errorMessage, "password") then PasswordMessage
    else if Contains(errorMessage, "already registered") then AlreadyRegisteredMessage
    else if Contains(errorMessage, "invalid email") then InvalidEmailMessage
    else FallbackMessage
  }

  /** Whatever the input, the output is one of the four fixed messages. */
  lemma MapAuthErrorIsOneOfFour(errorMessage: string)
    ensures MapAuthError(errorMessage) in {PasswordMessage, AlreadyRegisteredMessage, InvalidEmailMessage, FallbackMessage}
  {
  }

  /** A string shorter than `sub` does not contain it. */
  lemma {:induction false} ShorterNeverContains(s: string, sub: string)
    requires |s| < |sub|
    ensures !Contains(s, sub)
    decreases |s|
  {
    if |s| > 0 {
      ShorterNeverContains(s[1..], sub);
    }
  }

  /** Matching is case-sensitive: a capitalised "Password" falls through to
      the fallback. */
  lemma CapitalisedPasswordFallsThrough()
    ensures MapAuthError("Password") == FallbackMessage
  {
    var s := "Password";
    ShorterNeverContains(s[1..], "password");
    assert !StartsWith(s, "password") by { assert s[0] != "password"[0]; }
    assert !Contains(s, "password");
    ContainsIffOccurs(s, "password");
    ShorterNeverContains(s, "already registered");
    ContainsIffOccurs(s, "already registered");
    ShorterNeverContains(s, "invalid email");
    ContainsIffOccurs(s, "invalid email");
  }
}
