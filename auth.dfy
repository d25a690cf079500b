/** The identity records the core reads from the authentication context:
    the signed-in user's id and the profile row with its role
    (the `Profile` interface of src/lib/supabase.ts). */
module Auth {
  import opened Wrappers

  datatype Role = Customer | Barber | Admin

  datatype Profile = Profile(id: string, role: Role, fullName: string)

  /** The gate of useGallery.ts: a user, a profile, and the admin role. */
  predicate IsAdmin(user: Option<string>, profile: Option<Profile>) {
    user.Some? && profile.Some? && profile.value.role == Admin
  }
}
