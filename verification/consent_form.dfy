/** Which posted field each part of a consent is read from. */
module ConsentForm {
  import opened Bytes
  import opened Consent

  /** The first value posted under a name, or nothing. */
  predicate FirstValue(form: Values, name: string, v: bytes) {
    if name in form && |form[name]| > 0 then v == form[name][0] else v == []
  }

  /** The form carries that request, each protocol parameter under its own name. */
  predicate Carries(form: Values, req: Request) {
    FirstValue(form, "client_id", req.client) && FirstValue(form, "redirect_uri", req.redirect) &&
    FirstValue(form, "state", req.state) && FirstValue(form, "code_challenge", req.challenge) &&
    FirstValue(form, "resource", req.resource)
  }

  lemma PostedIsCarried(form: Values, req: Request)
    ensures Posted(form) == req.(scopes := []) <==> Carries(form, req)
  {}

  /** A posted form whose consent field is a signature this server issued is accepted exactly within ten
      minutes, for the user it was issued to, and when every protocol parameter is posted as it was
      signed; the answer is the signed request, with its scopes left to the user. */
  lemma FormIsAcceptedExactlyWhen(s: Signer, issued: int, signedUser: bytes, req: Request, now: int, form: Values, user: bytes)
    requires Injective(s) && s.key != [] && Int64(issued + 600) && Sizes(user, Posted(form)) && Sizes(signedUser, req)
    requires FirstValue(form, "consent", Sign(s, issued, signedUser, req))
    ensures VerifyForm(s, now, form, user).Some? <==> now <= issued + 600 && user == signedUser && Carries(form, req)
    ensures VerifyForm(s, now, form, user).Some? ==> VerifyForm(s, now, form, user).value == req.(scopes := [])
  {
    hide Sign, Verify, VerifyForm;
    PostedIsCarried(form, req);
    FormReadsBackTheSignedRequest(s, issued, signedUser, req, now, form, user);
  }

  /** Whatever is accepted is what was posted. */
  lemma AcceptedIsPosted(s: Signer, now: int, form: Values, user: bytes)
    ensures VerifyForm(s, now, form, user).Some? ==>
              Carries(form, VerifyForm(s, now, form, user).value) && VerifyForm(s, now, form, user).value.scopes == []
  {
    hide Verify;
    PostedIsCarried(form, Posted(form));
  }
}
