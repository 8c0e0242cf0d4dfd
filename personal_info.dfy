/** The `personalInfo` slice of the Redux store (src/store/personalInfo.ts). */
module PersonalInfo {
  import opened Wrappers

  datatype Info = Info(fullName: string, email: string, phone: string, dob: string)

  /** A `Partial<PersonalInfoState>`: a field is either present or absent. */
  datatype Patch = Patch(
    fullName: Option<string>, email: Option<string>, phone: Option<string>, dob: Option<string>)

  const InitialInfo: Info := Info("John Doe", "johndoe1999@gmail.com", "0987329382", "17/09/1999")

  const EmptyPatch: Patch := Patch(None, None, None, None)

  /** The patch that carries every field of `info`. */
  function Complete(info: Info): Patch {
    Patch(Some(info.fullName), Some(info.email), Some(info.phone), Some(info.dob))
  }

  /** `Object.assign(state, patch)` as a value. */
  function Assign(state: Info, patch: Patch): Info {
    Info(patch.fullName.GetOr(state.fullName), patch.email.GetOr(state.email),
         patch.phone.GetOr(state.phone), patch.dob.GetOr(state.dob))
  }

  class PersonalInfoSlice {
    var state: Info

    constructor ()
      ensures state == InitialInfo
    {
      state := InitialInfo;
    }

    /** `setPersonalInfo`: the payload becomes the state. */
    method SetPersonalInfo(payload: Info)
      modifies this
      ensures state == payload
    {
      state := payload;
    }

    /** `updatePersonalInfo`: the fields present in the payload are assigned. */
    method UpdatePersonalInfo(payload: Patch)
      modifies this
      ensures state == Assign(old(state), payload)
    {
      state := Assign(state, payload);
    }
  }

  /** A present field takes the payload's value; an absent one keeps the old value. */
  lemma AssignOverwritesPresentFields(state: Info, patch: Patch)
    ensures Assign(state, patch).fullName == if patch.fullName.Some? then patch.fullName.value else state.fullName
    ensures Assign(state, patch).email == if patch.email.Some? then patch.email.value else state.email
    ensures Assign(state, patch).phone == if patch.phone.Some? then patch.phone.value else state.phone
    ensures Assign(state, patch).dob == if patch.dob.Some? then patch.dob.value else state.dob
  {
  }

  /** An empty payload changes nothing; the same payload twice equals once. */
  lemma AssignEmptyAndIdempotent(state: Info, patch: Patch)
    ensures Assign(state, EmptyPatch) == state
    ensures Assign(Assign(state, patch), patch) == Assign(state, patch)
  {
  }

  /** Updating with a complete record is the same as setting it. */
  lemma AssignCompleteIsSet(state: Info, info: Info)
    ensures Assign(state, Complete(info)) == info
  {
  }
}
